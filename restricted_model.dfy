/** Restricting a model to a set of allowed states: the allowed states are
    renumbered densely, every action keeps only its mass on allowed targets
    (rescaled), actions left without successors are dropped, and the kept
    action indices and the restricted initial states are recorded. As in the
    Java code, the restricted actions are appended to the input model, at
    the restricted id of their state; the new model only receives the states
    and the initial states. */
module RestrictedModels {
  import opened NatSets
  import opened Distributions
  import opened Models
  import opened Explorers

  /** Distinct allowed states have distinct restricted ids. */
  ghost predicate Injective(o2r: seq<int>) {
    forall i, j :: 0 <= i < |o2r| && 0 <= j < |o2r| && i != j && o2r[i] >= 0 ==> o2r[i] != o2r[j]
  }

  /** Some state has restricted id `r`. */
  ghost predicate Used(o2r: seq<int>, r: nat) {
    exists i :: 0 <= i < |o2r| && o2r[i] == r
  }

  /** `o2r` numbers the states of `allowed` injectively onto 0 .. cnt-1 and
      maps every other state to -1. */
  ghost predicate Numbering(o2r: seq<int>, allowed: set<nat>, cnt: nat) {
    && (forall i :: i in allowed ==> i < |o2r|)
    && (forall i :: 0 <= i < |o2r| ==> (i in allowed ==> 0 <= o2r[i] < cnt) && (i !in allowed ==> o2r[i] == -1))
    && Injective(o2r)
    && (forall r :: 0 <= r < cnt ==> Used(o2r, r))
  }

  /** A numbering is a bijection, so it uses as many ids as there are
      allowed states. */
  lemma {:induction false} NumberingCard(o2r: seq<int>, allowed: set<nat>, cnt: nat)
    requires Numbering(o2r, allowed, cnt)
    ensures |allowed| == cnt
    decreases cnt
  {
    if cnt > 0 {
      assert Used(o2r, cnt - 1);
      var i :| 0 <= i < |o2r| && o2r[i] == cnt - 1;
      var o2r' := o2r[i := -1];
      forall r | 0 <= r < cnt - 1 ensures Used(o2r', r) {
        assert Used(o2r, r);
        var j :| 0 <= j < |o2r| && o2r[j] == r;
        assert o2r'[j] == r;
      }
      NumberingCard(o2r', allowed - {i}, cnt - 1);
    }
  }

  /** The array filled from a numbering is its inverse. */
  lemma MappingInverse(o2r: seq<int>, r2o: seq<nat>, allowed: set<nat>, cnt: nat)
    requires Numbering(o2r, allowed, cnt) && |r2o| == cnt
    requires forall o :: 0 <= o < |o2r| && o2r[o] >= 0 ==> r2o[o2r[o]] == o
    ensures forall r :: 0 <= r < cnt ==> r2o[r] in allowed && o2r[r2o[r]] == r
    ensures forall s :: s in allowed ==> r2o[o2r[s]] == s
  {
    forall r | 0 <= r < cnt ensures r2o[r] in allowed && o2r[r2o[r]] == r {
      assert Used(o2r, r);
    }
  }

  /** With the allowed states among the first `n`, at most `n` ids are used. */
  lemma NumberingFits(o2r: seq<int>, allowed: set<nat>, cnt: nat, n: nat)
    requires Numbering(o2r, allowed, cnt) && forall s :: s in allowed ==> s < n
    ensures cnt <= n
  {
    NumberingCard(o2r, allowed, cnt);
    CardBelow(n);
    assert allowed <= Below(n);
    CardDifference(Below(n), allowed);
  }

  /** Whether target `t` of an action of `source` survives: it is allowed
      and not a self-loop that is omitted. */
  predicate KeepsTarget(o2r: seq<int>, t: nat, source: nat, omitSelfLoops: bool) {
    t < |o2r| && o2r[t] >= 0 && !(omitSelfLoops && t == source)
  }

  /** Every surviving target of `d` among `done` is present in `r` under
      its restricted id, with its weight. */
  ghost predicate Covers(r: Distribution, d: Distribution, done: set<nat>, o2r: seq<int>, source: nat, omitSelfLoops: bool) {
    forall t :: t in d && t in done && KeepsTarget(o2r, t, source, omitSelfLoops) ==>
      o2r[t] as nat in r && r[o2r[t] as nat] == d[t]
  }

  /** `k` is the restricted id of a surviving target of `d` among `done`. */
  ghost predicate Origin(d: Distribution, done: set<nat>, o2r: seq<int>, source: nat, omitSelfLoops: bool, k: nat) {
    exists t :: t in d && t in done && KeepsTarget(o2r, t, source, omitSelfLoops) && o2r[t] == k
  }

  /** Every key of `r` is the restricted id of a surviving target. */
  ghost predicate Within(r: Distribution, d: Distribution, done: set<nat>, o2r: seq<int>, source: nat, omitSelfLoops: bool) {
    forall k :: k in r ==> Origin(d, done, o2r, source, omitSelfLoops, k)
  }

  /** The restricted part of a distribution: the weights of the surviving
      targets added up under their restricted ids. */
  function RestrictedPart(d: Distribution, o2r: seq<int>, source: nat, omitSelfLoops: bool): Distribution
    decreases |d|
  {
    if d == map[] then map[]
    else
      var t := MinKey(d);
      assert |d - {t}| < |d| by { assert (d - {t}).Keys < d.Keys; }
      var rest := RestrictedPart(d - {t}, o2r, source, omitSelfLoops);
      if KeepsTarget(o2r, t, source, omitSelfLoops) then AddTo(rest, o2r[t] as nat, d[t]) else rest
  }

  /** Under an injective numbering, the restricted part holds every
      surviving target under its restricted id with its weight, and nothing
      else. */
  lemma {:induction false} RestrictedPartSpec(d: Distribution, o2r: seq<int>, source: nat, omitSelfLoops: bool)
    requires Injective(o2r)
    ensures var r := RestrictedPart(d, o2r, source, omitSelfLoops);
      Covers(r, d, d.Keys, o2r, source, omitSelfLoops) && Within(r, d, d.Keys, o2r, source, omitSelfLoops)
    decreases |d|
  {
    if d != map[] {
      var t := MinKey(d);
      var d' := d - {t};
      assert (d - {t}).Keys < d.Keys;
      RestrictedPartSpec(d', o2r, source, omitSelfLoops);
      var rest := RestrictedPart(d', o2r, source, omitSelfLoops);
      assert Covers(rest, d, d'.Keys, o2r, source, omitSelfLoops);
      assert Within(rest, d, d'.Keys, o2r, source, omitSelfLoops) by {
        forall k | k in rest ensures Origin(d, d'.Keys, o2r, source, omitSelfLoops, k) {
          assert Origin(d', d'.Keys, o2r, source, omitSelfLoops, k);
          var u :| u in d' && u in d'.Keys && KeepsTarget(o2r, u, source, omitSelfLoops) && o2r[u] == k;
          assert u in d;
        }
      }
      RestrictionStep(rest, d, d'.Keys, o2r, source, omitSelfLoops, t);
      assert d'.Keys + {t} == d.Keys;
    }
  }

  /** The two properties determine the restricted part. */
  lemma RestrictionUnique(r: Distribution, d: Distribution, o2r: seq<int>, source: nat, omitSelfLoops: bool)
    requires Injective(o2r)
    requires Covers(r, d, d.Keys, o2r, source, omitSelfLoops) && Within(r, d, d.Keys, o2r, source, omitSelfLoops)
    ensures r == RestrictedPart(d, o2r, source, omitSelfLoops)
  {
    var p := RestrictedPart(d, o2r, source, omitSelfLoops);
    RestrictedPartSpec(d, o2r, source, omitSelfLoops);
    forall k | k in r ensures k in p && p[k] == r[k] {
      assert Origin(d, d.Keys, o2r, source, omitSelfLoops, k);
      var t :| t in d && KeepsTarget(o2r, t, source, omitSelfLoops) && o2r[t] == k;
    }
    forall k | k in p ensures k in r {
      assert Origin(d, d.Keys, o2r, source, omitSelfLoops, k);
      var t :| t in d && KeepsTarget(o2r, t, source, omitSelfLoops) && o2r[t] == k;
    }
  }

  /** One more target processed: if it survives, its weight is added under
      its restricted id, which no earlier target has. */
  lemma RestrictionStep(r: Distribution, d: Distribution, done: set<nat>, o2r: seq<int>, source: nat, omitSelfLoops: bool, t: nat)
    requires Injective(o2r) && t in d && t !in done
    requires Covers(r, d, done, o2r, source, omitSelfLoops) && Within(r, d, done, o2r, source, omitSelfLoops)
    ensures var r' := if KeepsTarget(o2r, t, source, omitSelfLoops) then AddTo(r, o2r[t] as nat, d[t]) else r;
      Covers(r', d, done + {t}, o2r, source, omitSelfLoops) && Within(r', d, done + {t}, o2r, source, omitSelfLoops)
  {
    if KeepsTarget(o2r, t, source, omitSelfLoops) {
      var k := o2r[t] as nat;
      if k in r {
        assert Origin(d, done, o2r, source, omitSelfLoops, k);
        var u :| u in d && u in done && KeepsTarget(o2r, u, source, omitSelfLoops) && o2r[u] == k;
        assert false;
      }
      var r' := r[k := d[t]];
      forall j | j in r' ensures Origin(d, done + {t}, o2r, source, omitSelfLoops, j) {
        if j != k {
          assert Origin(d, done, o2r, source, omitSelfLoops, j);
          var u :| u in d && u in done && KeepsTarget(o2r, u, source, omitSelfLoops) && o2r[u] == j;
          assert u in done + {t};
        }
      }
    } else {
      forall j | j in r ensures Origin(d, done + {t}, o2r, source, omitSelfLoops, j) {
        assert Origin(d, done, o2r, source, omitSelfLoops, j);
        var u :| u in d && u in done && KeepsTarget(o2r, u, source, omitSelfLoops) && o2r[u] == j;
        assert u in done + {t};
      }
    }
  }

  /** The builder loop over the entries of one distribution. */
  method RestrictDistribution(d: Distribution, o2r: array<int>, source: nat, omitSelfLoops: bool)
    returns (r: Distribution)
    requires Injective(o2r[..])
    requires forall t :: t in d ==> t < o2r.Length
    ensures r == RestrictedPart(d, o2r[..], source, omitSelfLoops)
  {
    r := map[];
    var todo := d.Keys;
    ghost var done := {};
    while todo != {}
      invariant todo + done == d.Keys && todo !! done
      invariant Covers(r, d, done, o2r[..], source, omitSelfLoops) && Within(r, d, done, o2r[..], source, omitSelfLoops)
      decreases todo
    {
      var target :| target in todo;
      RestrictionStep(r, d, done, o2r[..], source, omitSelfLoops, target);
      var restrictedDestination := o2r[target];
      if !(restrictedDestination < 0 || (omitSelfLoops && target == source)) {
        r := AddTo(r, restrictedDestination, d[target]);
      }
      todo, done := todo - {target}, done + {target};
    }
    RestrictionUnique(r, d, o2r[..], source, omitSelfLoops);
  }

  /** Every action of `list` restricted and rescaled, kept or not. */
  ghost function RestrictedActions(list: seq<Action>, o2r: seq<int>, source: nat, omitSelfLoops: bool)
    : (r: seq<Action>)
    requires Injective(o2r)
    ensures |r| == |list|
  {
    seq(|list|, i requires 0 <= i < |list| =>
      Action(Scaled(RestrictedPart(list[i].distribution, o2r, source, omitSelfLoops)), list[i].actionLabel))
  }

  /** The indices of the actions whose restricted part is not empty. */
  ghost function KeptActions(list: seq<Action>, o2r: seq<int>, source: nat, omitSelfLoops: bool): set<nat>
    requires Injective(o2r)
  {
    set i | 0 <= i < |list| && RestrictedPart(list[i].distribution, o2r, source, omitSelfLoops) != map[]
  }

  /** The actions a state's list contributes: the kept ones, restricted, in
      order. */
  ghost function RestrictedList(list: seq<Action>, o2r: seq<int>, source: nat, omitSelfLoops: bool): seq<Action>
    requires Injective(o2r)
  {
    Select(RestrictedActions(list, o2r, source, omitSelfLoops), KeptActions(list, o2r, source, omitSelfLoops))
  }

  /** Position `k` of the restricted list is the action at the `k`-th kept
      index, with its label, its restricted part rescaled, and only
      restricted ids of surviving targets as successors; the kept indices
      are those whose restricted part is not empty. */
  lemma RestrictedListSpec(list: seq<Action>, o2r: seq<int>, source: nat, omitSelfLoops: bool)
    requires Injective(o2r)
    ensures var keep := KeptActions(list, o2r, source, omitSelfLoops);
      var r, idx := RestrictedList(list, o2r, source, omitSelfLoops), SelectedIndices(|list|, keep);
      && |r| == |idx|
      && (forall k :: 0 <= k < |r| ==>
            && idx[k] < |list| && idx[k] in keep
            && r[k].actionLabel == list[idx[k]].actionLabel
            && r[k].distribution == Scaled(RestrictedPart(list[idx[k]].distribution, o2r, source, omitSelfLoops))
            && r[k].distribution != map[])
      && (forall k, t :: 0 <= k < |r| && t in r[k].distribution ==>
            exists u :: u in list[idx[k]].distribution && KeepsTarget(o2r, u, source, omitSelfLoops) && o2r[u] == t)
  {
    var keep := KeptActions(list, o2r, source, omitSelfLoops);
    SelectPicks(RestrictedActions(list, o2r, source, omitSelfLoops), keep);
    var idx := SelectedIndices(|list|, keep);
    forall k | 0 <= k < |idx| ensures idx[k] in keep {
      SelectedIndicesInKeep(|list|, keep, k);
    }
    var r := RestrictedList(list, o2r, source, omitSelfLoops);
    forall k, t | 0 <= k < |r| && t in r[k].distribution
      ensures exists u :: u in list[idx[k]].distribution && KeepsTarget(o2r, u, source, omitSelfLoops) && o2r[u] == t
    {
      var d := list[idx[k]].distribution;
      RestrictedPartSpec(d, o2r, source, omitSelfLoops);
      assert t in RestrictedPart(d, o2r, source, omitSelfLoops);
      assert Origin(d, d.Keys, o2r, source, omitSelfLoops, t);
    }
  }

  /** A kept action of positive weights is rescaled to total weight one. */
  lemma RestrictedStochastic(d: Distribution, o2r: seq<int>, source: nat, omitSelfLoops: bool)
    requires Injective(o2r) && Positive(d)
    ensures Stochastic(Scaled(RestrictedPart(d, o2r, source, omitSelfLoops)))
  {
    var part := RestrictedPart(d, o2r, source, omitSelfLoops);
    RestrictedPartSpec(d, o2r, source, omitSelfLoops);
    forall k | k in part ensures part[k] > 0.0 {
      assert Origin(d, d.Keys, o2r, source, omitSelfLoops, k);
    }
    ScaledStochastic(part);
  }

  /** The original model after the states below `k` were processed: each
      allowed one appended its restricted list, as read at that moment, to
      the list of the state numbered like its restricted id. */
  ghost function AfterStates(acts: seq<seq<Action>>, o2r: seq<int>, k: nat, omitSelfLoops: bool)
    : (r: seq<seq<Action>>)
    requires k <= |o2r| == |acts| && Injective(o2r) && forall i :: 0 <= i < |o2r| ==> o2r[i] < |acts|
    ensures |r| == |acts|
  {
    if k == 0 then acts
    else
      var prev := AfterStates(acts, o2r, k - 1, omitSelfLoops);
      if o2r[k - 1] < 0 then prev
      else prev[o2r[k - 1] := prev[o2r[k - 1]] + RestrictedList(prev[k - 1], o2r, k - 1, omitSelfLoops)]
  }

  /** The kept action indices of original state `o`, from its list as read
      when it was processed. */
  ghost function KeptAt(acts: seq<seq<Action>>, o2r: seq<int>, o: nat, omitSelfLoops: bool): set<nat>
    requires o < |o2r| == |acts| && Injective(o2r) && forall i :: 0 <= i < |o2r| ==> o2r[i] < |acts|
  {
    KeptActions(AfterStates(acts, o2r, o, omitSelfLoops)[o], o2r, o, omitSelfLoops)
  }

  /** The restricted ids of the initial states that are allowed. */
  ghost function InitialImage(initial: set<nat>, o2r: seq<int>): set<nat> {
    set i | i in initial && i < |o2r| && o2r[i] >= 0 :: o2r[i] as nat
  }

  lemma InitialImageStep(done: set<nat>, o2r: seq<int>, i: nat)
    ensures InitialImage(done + {i}, o2r) ==
      InitialImage(done, o2r) + (if i < |o2r| && o2r[i] >= 0 then {o2r[i] as nat} else {})
  {
  }

  /** The first loop: every allowed state gets the next id of the new
      model. */
  method Number(newModel: Model, allowed: set<nat>, n: nat) returns (o2r: array<int>)
    requires newModel.Valid() && newModel.actions == []
    requires forall s :: s in allowed ==> s < n
    modifies newModel
    ensures fresh(o2r) && o2r.Length == n
    ensures newModel.Valid() && newModel.initialStates == old(newModel.initialStates)
    ensures Numbering(o2r[..], allowed, |newModel.actions|)
    ensures forall s :: 0 <= s < |newModel.actions| ==> newModel.actions[s] == []
  {
    o2r := new int[n](_ => -1);
    var todo := allowed;
    ghost var done := {};
    while todo != {}
      invariant todo + done == allowed && todo !! done
      invariant newModel.Valid() && newModel.initialStates == old(newModel.initialStates)
      invariant forall s :: 0 <= s < |newModel.actions| ==> newModel.actions[s] == []
      invariant Numbering(o2r[..], done, |newModel.actions|)
      decreases todo
    {
      var allowedState :| allowedState in todo;
      ghost var before := o2r[..];
      var id := newModel.AddState();
      o2r[allowedState] := id;
      assert o2r[..] == before[allowedState := id];
      forall r | 0 <= r < id + 1 ensures Used(o2r[..], r) {
        if r == id {
          assert o2r[..][allowedState] == r;
        } else {
          assert Used(before, r);
          var i :| 0 <= i < |before| && before[i] == r;
          assert o2r[..][i] == r;
        }
      }
      todo, done := todo - {allowedState}, done + {allowedState};
    }
  }

  /** What action `a` contributes: nothing if no target survives, otherwise
      its restricted part, rescaled, under its label. */
  ghost function Contribution(a: Action, o2r: seq<int>, source: nat, omitSelfLoops: bool): seq<Action>
    requires Injective(o2r)
  {
    var part := RestrictedPart(a.distribution, o2r, source, omitSelfLoops);
    if part == map[] then [] else [Action(Scaled(part), a.actionLabel)]
  }

  /** The contributions of the first `n` actions of `list`, in order. */
  ghost function RestrictedPrefix(list: seq<Action>, o2r: seq<int>, source: nat, omitSelfLoops: bool, n: nat)
    : seq<Action>
    requires n <= |list| && Injective(o2r)
  {
    if n == 0 then []
    else RestrictedPrefix(list, o2r, source, omitSelfLoops, n - 1) + Contribution(list[n - 1], o2r, source, omitSelfLoops)
  }

  /** The indices among the first `n` whose action contributes nothing. */
  ghost function RemovedPrefix(list: seq<Action>, o2r: seq<int>, source: nat, omitSelfLoops: bool, n: nat)
    : set<nat>
    requires n <= |list| && Injective(o2r)
  {
    if n == 0 then {}
    else
      RemovedPrefix(list, o2r, source, omitSelfLoops, n - 1) +
      (if Contribution(list[n - 1], o2r, source, omitSelfLoops) == [] then {n - 1} else {})
  }

  lemma {:induction false} PrefixSelects(list: seq<Action>, o2r: seq<int>, source: nat, omitSelfLoops: bool, n: nat)
    requires n <= |list| && Injective(o2r)
    ensures var keep := KeptActions(list, o2r, source, omitSelfLoops);
      && RestrictedPrefix(list, o2r, source, omitSelfLoops, n) ==
           Select(RestrictedActions(list, o2r, source, omitSelfLoops)[..n], keep)
      && RemovedPrefix(list, o2r, source, omitSelfLoops, n) == Below(n) - keep
  {
    var keep := KeptActions(list, o2r, source, omitSelfLoops);
    var mapped := RestrictedActions(list, o2r, source, omitSelfLoops);
    if n == 0 {
      assert mapped[..0] == [];
    } else {
      PrefixSelects(list, o2r, source, omitSelfLoops, n - 1);
      SelectSnoc(mapped, n - 1, keep);
    }
  }

  /** The whole list contributes the restricted list and removes exactly
      the actions that are not kept. */
  lemma PrefixComplete(list: seq<Action>, o2r: seq<int>, source: nat, omitSelfLoops: bool)
    requires Injective(o2r)
    ensures RestrictedPrefix(list, o2r, source, omitSelfLoops, |list|) == RestrictedList(list, o2r, source, omitSelfLoops)
    ensures Below(|list|) - RemovedPrefix(list, o2r, source, omitSelfLoops, |list|) == KeptActions(list, o2r, source, omitSelfLoops)
  {
    PrefixSelects(list, o2r, source, omitSelfLoops, |list|);
    var mapped := RestrictedActions(list, o2r, source, omitSelfLoops);
    assert mapped[..|list|] == mapped;
  }

  lemma UpdateTwice<T>(xs: seq<seq<T>>, i: nat, a: seq<T>, b: seq<T>)
    requires i < |xs|
    ensures xs[i := xs[i] + a][i := xs[i] + a + b] == xs[i := xs[i] + (a + b)]
  {
    assert xs[i] + a + b == xs[i] + (a + b);
  }

  /** Restricted ids below `n` keep the restricted part's targets below
      `n`. */
  lemma RestrictedBelow(d: Distribution, o2r: seq<int>, source: nat, omitSelfLoops: bool, n: nat, actionLabel: Option<Label>)
    requires Injective(o2r) && forall t :: 0 <= t < |o2r| ==> o2r[t] < n
    ensures TargetsBelow(Action(Scaled(RestrictedPart(d, o2r, source, omitSelfLoops)), actionLabel), n)
  {
    var part := RestrictedPart(d, o2r, source, omitSelfLoops);
    RestrictedPartSpec(d, o2r, source, omitSelfLoops);
    forall k | k in part ensures k < n {
      assert Origin(d, d.Keys, o2r, source, omitSelfLoops, k);
    }
  }

  /** One pass of the inner loop: the action is restricted and, unless
      nothing survives, appended to the list of `r`. */
  method RestrictAction(model: Model, action: Action, o2r: array<int>, ghost numbering: seq<int>, source: nat, r: nat,
                        omitSelfLoops: bool)
    returns (removed: bool)
    requires o2r[..] == numbering && Injective(numbering)
    requires model.Valid() && r < |model.actions|
    requires forall t :: 0 <= t < o2r.Length ==> o2r[t] < |model.actions|
    requires forall t :: t in action.distribution ==> t < o2r.Length
    modifies model
    ensures model.Valid() && model.initialStates == old(model.initialStates)
    ensures model.actions == old(model.actions)[r := old(model.actions[r]) + Contribution(action, numbering, source, omitSelfLoops)]
    ensures removed <==> Contribution(action, numbering, source, omitSelfLoops) == []
  {
    var distribution := RestrictDistribution(action.distribution, o2r, source, omitSelfLoops);
    removed := distribution == map[];
    if removed {
      assert old(model.actions[r]) + [] == old(model.actions[r]);
    } else {
      RestrictedBelow(action.distribution, numbering, source, omitSelfLoops, |model.actions|, action.actionLabel);
      model.AddChoice(r, Action(Scaled(distribution), action.actionLabel));
    }
  }

  /** The state of the inner loop after the first `index` actions of
      `list`: their contributions are appended to the list of `r`, and the
      indices of the others are collected in `removed`. */
  ghost predicate Appended(acts0: seq<seq<Action>>, acts: seq<seq<Action>>, r: nat, list: seq<Action>, o2r: seq<int>,
                           source: nat, omitSelfLoops: bool, index: nat, removed: set<nat>)
  {
    && Injective(o2r) && index <= |list| && r < |acts0|
    && acts == acts0[r := acts0[r] + RestrictedPrefix(list, o2r, source, omitSelfLoops, index)]
    && removed == RemovedPrefix(list, o2r, source, omitSelfLoops, index)
  }

  /** Appending the contribution of the next action keeps `Appended`. */
  lemma AppendedStep(acts0: seq<seq<Action>>, acts1: seq<seq<Action>>, acts2: seq<seq<Action>>, r: nat,
                     list: seq<Action>, o2r: seq<int>, source: nat, omitSelfLoops: bool, index: nat,
                     removed: set<nat>, isRemoved: bool)
    requires Appended(acts0, acts1, r, list, o2r, source, omitSelfLoops, index, removed) && index < |list|
    requires acts2 == acts1[r := acts1[r] + Contribution(list[index], o2r, source, omitSelfLoops)]
    requires isRemoved <==> Contribution(list[index], o2r, source, omitSelfLoops) == []
    ensures Appended(acts0, acts2, r, list, o2r, source, omitSelfLoops, index + 1,
                     if isRemoved then removed + {index} else removed)
  {
    var appended := RestrictedPrefix(list, o2r, source, omitSelfLoops, index);
    UpdateTwice(acts0, r, appended, Contribution(list[index], o2r, source, omitSelfLoops));
  }

  /** The inner loop over one state's actions: every action with a
      non-empty restricted part is appended, rescaled, to the list of `r`
      in `model`; returns the indices of the other actions. */
  method AppendRestricted(model: Model, list: seq<Action>, o2r: array<int>, ghost numbering: seq<int>, source: nat, r: nat,
                          omitSelfLoops: bool)
    returns (removed: set<nat>)
    requires o2r[..] == numbering && Injective(numbering)
    requires model.Valid() && r < |model.actions|
    requires forall t :: 0 <= t < o2r.Length ==> o2r[t] < |model.actions|
    requires forall a :: 0 <= a < |list| ==> forall t :: t in list[a].distribution ==> t < o2r.Length
    modifies model
    ensures model.Valid() && model.initialStates == old(model.initialStates)
    ensures model.actions == old(model.actions)[r := old(model.actions[r]) + RestrictedPrefix(list, numbering, source, omitSelfLoops, |list|)]
    ensures removed == RemovedPrefix(list, numbering, source, omitSelfLoops, |list|)
  {
    removed := {};
    var index: nat := 0;
    assert old(model.actions[r]) + [] == old(model.actions[r]);
    while index < |list|
      invariant model.Valid() && model.initialStates == old(model.initialStates)
      invariant Appended(old(model.actions), model.actions, r, list, numbering, source, omitSelfLoops, index, removed)
      decreases |list| - index
    {
      ghost var before := model.actions;
      var isRemoved := RestrictAction(model, list[index], o2r, numbering, source, r, omitSelfLoops);
      AppendedStep(old(model.actions), before, model.actions, r, list, numbering, source, omitSelfLoops, index,
                   removed, isRemoved);
      if isRemoved {
        removed := removed + {index};
      }
      index := index + 1;
    }
  }

  /** `list` restricted into the list of `r` in `model`: the restricted
      list is appended and the kept indices are returned. */
  method RestrictActions(model: Model, list: seq<Action>, o2r: array<int>, ghost numbering: seq<int>, source: nat, r: nat,
                         omitSelfLoops: bool)
    returns (kept: set<nat>)
    requires o2r[..] == numbering && Injective(numbering)
    requires model.Valid() && r < |model.actions|
    requires forall t :: 0 <= t < o2r.Length ==> o2r[t] < |model.actions|
    requires forall a :: 0 <= a < |list| ==> forall t :: t in list[a].distribution ==> t < o2r.Length
    modifies model
    ensures model.Valid() && model.initialStates == old(model.initialStates)
    ensures model.actions == old(model.actions)[r := old(model.actions[r]) + RestrictedList(list, numbering, source, omitSelfLoops)]
    ensures kept == KeptActions(list, numbering, source, omitSelfLoops)
  {
    var removed := AppendRestricted(model, list, o2r, numbering, source, r, omitSelfLoops);
    PrefixComplete(list, numbering, source, omitSelfLoops);
    kept := Below(|list|) - removed;
  }

  /** The tables filled by the loop over the first `k` original states:
      each allowed one's original id and kept action indices, at its
      restricted id. */
  ghost predicate Recorded(r2o: seq<nat>, kept: seq<set<nat>>, acts: seq<seq<Action>>, o2r: seq<int>, k: nat,
                           omitSelfLoops: bool)
    requires k <= |o2r| == |acts| && Injective(o2r) && forall i :: 0 <= i < |o2r| ==> o2r[i] < |acts|
  {
    forall o :: 0 <= o < k && o2r[o] >= 0 ==>
      o2r[o] < |r2o| && o2r[o] < |kept| && r2o[o2r[o]] == o && kept[o2r[o]] == KeptAt(acts, o2r, o, omitSelfLoops)
  }

  /** Recording original state `k` keeps `Recorded`. */
  lemma RecordedStep(r2o: seq<nat>, kept: seq<set<nat>>, acts: seq<seq<Action>>, o2r: seq<int>, allowed: set<nat>,
                     cnt: nat, k: nat, omitSelfLoops: bool)
    requires Numbering(o2r, allowed, cnt) && |o2r| == |acts| && cnt <= |acts| && k < |o2r|
    requires |r2o| == |kept| == cnt && Recorded(r2o, kept, acts, o2r, k, omitSelfLoops)
    ensures o2r[k] < 0 ==> Recorded(r2o, kept, acts, o2r, k + 1, omitSelfLoops)
    ensures o2r[k] >= 0 ==> Recorded(r2o[o2r[k] := k], kept[o2r[k] := KeptAt(acts, o2r, k, omitSelfLoops)],
                                     acts, o2r, k + 1, omitSelfLoops)
  {
    if o2r[k] >= 0 {
      forall o | 0 <= o < k && o2r[o] >= 0 ensures o2r[o] != o2r[k] {
        assert o != k;
      }
    }
  }

  /** The state of the loop over the original states after the first `k`:
      their restricted lists are appended and their ids and kept action
      indices recorded. */
  ghost predicate Restricting(acts0: seq<seq<Action>>, acts: seq<seq<Action>>, r2o: seq<nat>, kept: seq<set<nat>>,
                              o2r: seq<int>, k: nat, omitSelfLoops: bool)
  {
    && k <= |o2r| == |acts0| && Injective(o2r) && (forall i :: 0 <= i < |o2r| ==> o2r[i] < |acts0|)
    && acts == AfterStates(acts0, o2r, k, omitSelfLoops)
    && Recorded(r2o, kept, acts0, o2r, k, omitSelfLoops)
  }

  /** Restricting original state `k` keeps `Restricting`. */
  lemma RestrictingStep(acts0: seq<seq<Action>>, acts1: seq<seq<Action>>, acts2: seq<seq<Action>>,
                        r2o1: seq<nat>, r2o2: seq<nat>, kept1: seq<set<nat>>, kept2: seq<set<nat>>,
                        o2r: seq<int>, allowed: set<nat>, cnt: nat, k: nat, omitSelfLoops: bool)
    requires Numbering(o2r, allowed, cnt) && cnt <= |acts0| && k < |o2r| && |r2o1| == |kept1| == cnt
    requires Restricting(acts0, acts1, r2o1, kept1, o2r, k, omitSelfLoops)
    requires o2r[k] < 0 ==> acts2 == acts1 && r2o2 == r2o1 && kept2 == kept1
    requires o2r[k] >= 0 ==>
      && acts2 == acts1[o2r[k] := acts1[o2r[k]] + RestrictedList(acts1[k], o2r, k, omitSelfLoops)]
      && r2o2 == r2o1[o2r[k] := k]
      && kept2 == kept1[o2r[k] := KeptActions(acts1[k], o2r, k, omitSelfLoops)]
    ensures Restricting(acts0, acts2, r2o2, kept2, o2r, k + 1, omitSelfLoops)
  {
    RecordedStep(r2o1, kept1, acts0, o2r, allowed, cnt, k, omitSelfLoops);
  }

  /** One pass of the loop over the original states: an allowed state
      records its original id under its restricted id, appends its
      restricted list to that id's list and records its kept action
      indices; a state that is not allowed changes nothing. */
  method RestrictState(model: Model, o2r: array<int>, ghost numbering: seq<int>, r2o: array<nat>,
                       restrictedActions: array<set<nat>>, originalState: nat, omitSelfLoops: bool)
    requires o2r[..] == numbering && Injective(numbering) && originalState < o2r.Length
    requires model.Valid() && o2r.Length == |model.actions|
    requires r2o.Length == restrictedActions.Length <= |model.actions|
    requires forall i :: 0 <= i < |numbering| ==> -1 <= numbering[i] < r2o.Length
    modifies model, r2o, restrictedActions
    ensures model.Valid() && model.initialStates == old(model.initialStates)
    ensures numbering[originalState] < 0 ==>
      model.actions == old(model.actions) && r2o[..] == old(r2o[..]) && restrictedActions[..] == old(restrictedActions[..])
    ensures numbering[originalState] >= 0 ==>
      var r, list := numbering[originalState], old(model.actions[originalState]);
      && model.actions == old(model.actions)[r := old(model.actions[r]) + RestrictedList(list, numbering, originalState, omitSelfLoops)]
      && r2o[..] == old(r2o[..])[r := originalState]
      && restrictedActions[..] == old(restrictedActions[..])[r := KeptActions(list, numbering, originalState, omitSelfLoops)]
  {
    if o2r[originalState] != -1 {
      var restrictedState := o2r[originalState];
      r2o[restrictedState] := originalState;
      var actions := model.actions[originalState];
      var kept := RestrictActions(model, actions, o2r, numbering, originalState, restrictedState, omitSelfLoops);
      restrictedActions[restrictedState] := kept;
    }
  }

  /** The loop over the original states: each allowed state records its
      original id under its restricted id, appends its restricted list and
      records its kept action indices. */
  method RestrictAll(model: Model, o2r: array<int>, ghost numbering: seq<int>, ghost allowed: set<nat>, cnt: nat,
                     omitSelfLoops: bool)
    returns (r2o: array<nat>, restrictedActions: array<set<nat>>)
    requires o2r[..] == numbering && Numbering(numbering, allowed, cnt)
    requires model.Valid() && o2r.Length == |model.actions| && cnt <= |model.actions|
    modifies model
    ensures fresh(r2o) && fresh(restrictedActions) && r2o.Length == cnt && restrictedActions.Length == cnt
    ensures model.Valid() && model.initialStates == old(model.initialStates)
    ensures model.actions == AfterStates(old(model.actions), numbering, |numbering|, omitSelfLoops)
    ensures Recorded(r2o[..], restrictedActions[..], old(model.actions), numbering, |numbering|, omitSelfLoops)
  {
    r2o := new nat[cnt];
    restrictedActions := new set<nat>[cnt];
    var originalState: nat := 0;
    while originalState < o2r.Length
      invariant o2r[..] == numbering
      invariant model.Valid() && model.initialStates == old(model.initialStates)
      invariant Restricting(old(model.actions), model.actions, r2o[..], restrictedActions[..], numbering,
                            originalState, omitSelfLoops)
      decreases o2r.Length - originalState
    {
      ghost var acts1, r2o1, kept1 := model.actions, r2o[..], restrictedActions[..];
      RestrictState(model, o2r, numbering, r2o, restrictedActions, originalState, omitSelfLoops);
      RestrictingStep(old(model.actions), acts1, model.actions, r2o1, r2o[..], kept1, restrictedActions[..],
                      numbering, allowed, cnt, originalState, omitSelfLoops);
      originalState := originalState + 1;
    }
  }

  /** The loop over the original initial states. */
  method RestrictInitialStates(initial: set<nat>, newModel: Model, o2r: array<int>, ghost numbering: seq<int>)
    requires o2r[..] == numbering
    requires newModel.Valid() && forall i :: 0 <= i < |numbering| ==> -1 <= numbering[i] < |newModel.actions|
    requires forall i :: i in initial ==> i < |numbering|
    modifies newModel
    ensures newModel.Valid() && newModel.actions == old(newModel.actions)
    ensures newModel.initialStates == old(newModel.initialStates) + InitialImage(initial, numbering)
  {
    var todo := initial;
    ghost var done := {};
    while todo != {}
      invariant todo + done == initial && todo !! done
      invariant newModel.Valid() && newModel.actions == old(newModel.actions)
      invariant newModel.initialStates == old(newModel.initialStates) + InitialImage(done, numbering)
      decreases todo
    {
      var initialState :| initialState in todo;
      InitialImageStep(done, numbering, initialState);
      var restrictedInitialState := o2r[initialState];
      if restrictedInitialState != -1 {
        newModel.AddInitialState(restrictedInitialState);
      }
      todo, done := todo - {initialState}, done + {initialState};
    }
  }

  /** `buildRestrictedModel`: fails with an illegal argument unless the new
      model is empty. Otherwise the new model gets one state per allowed
      state and the restricted initial states; the original model gets the
      restricted actions appended; and the state mapping and the kept action
      indices are returned, indexed by restricted id. `numbering` is the
      original-to-restricted array. */
  method BuildRestrictedModel(model: Model, newModel: Model, allowed: set<nat>, omitSelfLoops: bool)
    returns (outcome: Outcome, stateMapping: seq<nat>, stateActions: seq<set<nat>>, ghost numbering: seq<int>)
    requires model.Valid() && newModel.Valid() && model != newModel
    requires forall s :: s in allowed ==> s < |model.actions|
    modifies model, newModel
    ensures outcome == Pass || outcome == Fail(IllegalArgument)
    ensures outcome.Fail? <==> old(|newModel.actions|) != 0
    ensures outcome.Fail? ==> model.actions == old(model.actions) && newModel.actions == old(newModel.actions)
    ensures model.Valid() && newModel.Valid()
    ensures model.initialStates == old(model.initialStates) && |model.actions| == old(|model.actions|)
    ensures outcome.Pass? ==>
      && |numbering| == |model.actions| && |allowed| <= |model.actions| && Numbering(numbering, allowed, |allowed|)
      && |newModel.actions| == |allowed| && (forall r :: 0 <= r < |allowed| ==> newModel.actions[r] == [])
      && |stateMapping| == |allowed| && |stateActions| == |allowed|
      && (forall r :: 0 <= r < |allowed| ==> stateMapping[r] in allowed && numbering[stateMapping[r]] == r)
      && (forall s :: s in allowed ==> stateMapping[numbering[s]] == s)
      && (forall r :: 0 <= r < |allowed| ==>
            stateActions[r] == KeptAt(old(model.actions), numbering, stateMapping[r], omitSelfLoops))
      && model.actions == AfterStates(old(model.actions), numbering, |numbering|, omitSelfLoops)
      && newModel.initialStates == InitialImage(model.initialStates, numbering)
  {
    if |newModel.actions| != 0 {
      return Fail(IllegalArgument), [], [], [];
    }
    var o2r := Number(newModel, allowed, |model.actions|);
    ghost var num := o2r[..];
    var restrictedStates := |newModel.actions|;
    NumberingCard(num, allowed, restrictedStates);
    NumberingFits(num, allowed, restrictedStates, |model.actions|);
    var r2o, restrictedActions := RestrictAll(model, o2r, num, allowed, restrictedStates, omitSelfLoops);
    RestrictInitialStates(model.initialStates, newModel, o2r, num);
    outcome, stateMapping, stateActions, numbering := Pass, r2o[..], restrictedActions[..], num;
    MappingInverse(numbering, stateMapping, allowed, restrictedStates);
  }
}
