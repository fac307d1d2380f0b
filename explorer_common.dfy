/** What the three explorers share: the generator they query, the index that
    gives every discovered state a dense id, the builder loop that turns a
    generator choice into a distribution over ids, the distribution learned
    from successor counts, and the selection of a sub-list of actions. */
module Explorers {
  import opened NatSets
  import opened Distributions
  import opened Models

  /** One choice of the generator: its label and its weighted successors, in
      the order in which the transition map enumerates them. */
  datatype Choice<S> = Choice(choiceLabel: Option<Label>, transitions: seq<(S, real)>)

  /** The generator: its initial states and a deterministic oracle from a
      state to its choices. */
  datatype Generator<!S> = Generator(initialStates: seq<S>, choices: S -> seq<Choice<S>>)

  function Targets<S>(ts: seq<(S, real)>): (r: seq<S>)
    ensures |r| == |ts| && forall i :: 0 <= i < |ts| ==> r[i] == ts[i].0
  {
    if ts == [] then [] else [ts[0].0] + Targets(ts[1..])
  }

  /** All successors named by a list of choices, choice by choice. */
  function AllTargets<S>(cs: seq<Choice<S>>): seq<S> {
    if cs == [] then [] else Targets(cs[0].transitions) + AllTargets(cs[1..])
  }

  /** The states of `ss` that are not in `known`, each once, in the order in
      which `ss` first names them. */
  function Unseen<S>(known: set<S>, ss: seq<S>): seq<S>
    decreases |ss|
  {
    if ss == [] then []
    else if ss[0] in known then Unseen(known, ss[1..])
    else [ss[0]] + Unseen(known + {ss[0]}, ss[1..])
  }

  lemma {:induction false} UnseenFresh<S>(known: set<S>, ss: seq<S>)
    ensures forall i :: 0 <= i < |Unseen(known, ss)| ==> Unseen(known, ss)[i] !in known
    ensures forall i, j :: 0 <= i < j < |Unseen(known, ss)| ==> Unseen(known, ss)[i] != Unseen(known, ss)[j]
    ensures forall s :: s in Unseen(known, ss) <==> s in ss && s !in known
    decreases |ss|
  {
    if ss != [] {
      if ss[0] in known {
        UnseenFresh(known, ss[1..]);
      } else {
        UnseenFresh(known + {ss[0]}, ss[1..]);
      }
    }
  }

  /** `ids` and `states` are inverse: ids are dense and each names one state. */
  ghost predicate Indexes<S>(states: seq<S>, ids: map<S, nat>) {
    && (forall s :: s in ids ==> ids[s] < |states| && states[ids[s]] == s)
    && (forall i :: 0 <= i < |states| ==> states[i] in ids && ids[states[i]] == i)
  }

  /** `later` keeps every id of `earlier`. */
  ghost predicate Extends<S>(earlier: map<S, nat>, later: map<S, nat>) {
    forall s :: s in earlier ==> s in later && later[s] == earlier[s]
  }

  /** `after` is `before` with new, still action-less states appended. */
  ghost predicate ModelGrown(before: seq<seq<Action>>, after: seq<seq<Action>>) {
    && |before| <= |after|
    && (forall s :: 0 <= s < |before| ==> after[s] == before[s])
    && (forall s :: |before| <= s < |after| ==> after[s] == [])
  }

  lemma ModelGrownTrans(a: seq<seq<Action>>, b: seq<seq<Action>>, c: seq<seq<Action>>)
    requires ModelGrown(a, b) && ModelGrown(b, c)
    ensures ModelGrown(a, c)
  {
  }

  /** The explorers' state index: ids in discovery order. */
  class StateIndex<S(==)> {
    var states: seq<S>
    var ids: map<S, nat>

    ghost predicate Valid()
      reads this
    {
      Indexes(states, ids)
    }

    constructor ()
      ensures Valid() && states == [] && ids == map[]
    {
      states := [];
      ids := map[];
    }

    /** The id of `state`. An unseen state is added to the model as a new
        state, whose id is the number of states indexed so far. */
    method GetStateId(state: S, model: Model) returns (id: nat)
      requires Valid() && model.Valid() && |model.actions| == |states|
      modifies this, model
      ensures Valid() && model.Valid() && |model.actions| == |states|
      ensures model.initialStates == old(model.initialStates)
      ensures ids == old(ids)[state := id] && Extends(old(ids), ids)
      ensures ModelGrown(old(model.actions), model.actions)
      ensures state in old(ids) ==>
        id == old(ids[state]) && states == old(states) && model.actions == old(model.actions)
      ensures state !in old(ids) ==>
        id == old(|states|) && states == old(states) + [state] && model.actions == old(model.actions) + [[]]
    {
      if state in ids {
        id := ids[state];
        return;
      }
      id := model.AddState();
      states := states + [state];
      ids := ids[state := id];
    }
  }

  /** Every successor named by `ts` has an id. */
  ghost predicate Known<S>(ts: seq<(S, real)>, ids: map<S, nat>) {
    KnownUpTo(ts, ids, |ts|)
  }

  /** The first `k` successors named by `ts` have ids. */
  ghost predicate KnownUpTo<S>(ts: seq<(S, real)>, ids: map<S, nat>, k: nat) {
    forall i :: 0 <= i < k && i < |ts| ==> ts[i].0 in ids
  }

  /** Whether the builder drops a transition of `source` to `target`. */
  predicate Dropped(target: nat, source: nat, removeSelfLoops: bool) {
    removeSelfLoops && target == source
  }

  /** What the builder holds after the first `k` transitions. */
  function Accumulated<S>(ts: seq<(S, real)>, ids: map<S, nat>, k: nat, source: nat, removeSelfLoops: bool): Distribution
    requires k <= |ts| && KnownUpTo(ts, ids, k)
  {
    if k == 0 then map[]
    else
      var prev := Accumulated(ts, ids, k - 1, source, removeSelfLoops);
      var target := ids[ts[k - 1].0];
      if Dropped(target, source, removeSelfLoops) then prev else AddTo(prev, target, ts[k - 1].1)
  }

  /** Whether one of the first `k` transitions was dropped. */
  ghost predicate SkippedAny<S>(ts: seq<(S, real)>, ids: map<S, nat>, k: nat, source: nat, removeSelfLoops: bool)
    requires k <= |ts| && KnownUpTo(ts, ids, k)
  {
    exists i :: 0 <= i < k && Dropped(ids[ts[i].0], source, removeSelfLoops)
  }

  /** The distribution `exploreState` stores for a choice with transitions
      `ts`: the builder's contents, rescaled when a self-loop was dropped. */
  ghost function Built<S>(ts: seq<(S, real)>, ids: map<S, nat>, source: nat, removeSelfLoops: bool): Distribution
    requires Known(ts, ids)
  {
    var d := Accumulated(ts, ids, |ts|, source, removeSelfLoops);
    if SkippedAny(ts, ids, |ts|, source, removeSelfLoops) then Scaled(d) else d
  }

  lemma UnseenStep<S>(known: set<S>, state: S, tail: seq<S>)
    ensures Unseen(known, [state] + tail) ==
      if state in known then Unseen(known, tail) else [state] + Unseen(known + {state}, tail)
  {
    assert ([state] + tail)[1..] == tail;
  }

  /** One builder step, with ids that may have grown meanwhile. */
  lemma AccumulatedStep<S>(ts: seq<(S, real)>, ids: map<S, nat>, later: map<S, nat>,
                           k: nat, source: nat, removeSelfLoops: bool)
    requires k < |ts| && KnownUpTo(ts, ids, k) && Extends(ids, later) && ts[k].0 in later
    ensures KnownUpTo(ts, later, k + 1)
    ensures Accumulated(ts, later, k + 1, source, removeSelfLoops) ==
      var prev := Accumulated(ts, ids, k, source, removeSelfLoops);
      var target := later[ts[k].0];
      if Dropped(target, source, removeSelfLoops) then prev else AddTo(prev, target, ts[k].1)
    ensures SkippedAny(ts, later, k + 1, source, removeSelfLoops) <==>
      SkippedAny(ts, ids, k, source, removeSelfLoops) || Dropped(later[ts[k].0], source, removeSelfLoops)
  {
    AccumulatedExtends(ts, ids, later, k, source, removeSelfLoops);
  }

  /** Later ids do not change what was built from earlier ones. */
  lemma {:induction false} AccumulatedExtends<S>(ts: seq<(S, real)>, ids: map<S, nat>, later: map<S, nat>,
                                                 k: nat, source: nat, removeSelfLoops: bool)
    requires k <= |ts| && KnownUpTo(ts, ids, k) && Extends(ids, later)
    ensures KnownUpTo(ts, later, k)
    ensures Accumulated(ts, ids, k, source, removeSelfLoops) == Accumulated(ts, later, k, source, removeSelfLoops)
  {
    if k > 0 {
      AccumulatedExtends(ts, ids, later, k - 1, source, removeSelfLoops);
    }
  }

  lemma BuiltExtends<S>(ts: seq<(S, real)>, ids: map<S, nat>, later: map<S, nat>, source: nat, removeSelfLoops: bool)
    requires Known(ts, ids) && Extends(ids, later)
    ensures Known(ts, later)
    ensures Built(ts, ids, source, removeSelfLoops) == Built(ts, later, source, removeSelfLoops)
  {
    AccumulatedExtends(ts, ids, later, |ts|, source, removeSelfLoops);
    assert SkippedAny(ts, ids, |ts|, source, removeSelfLoops) <==> SkippedAny(ts, later, |ts|, source, removeSelfLoops);
  }

  /** The support after `k` transitions: the ids of their targets, without
      the dropped ones. */
  lemma {:induction false} AccumulatedSupport<S>(ts: seq<(S, real)>, ids: map<S, nat>, k: nat, source: nat, removeSelfLoops: bool)
    requires k <= |ts| && Known(ts, ids)
    ensures forall t :: t in Accumulated(ts, ids, k, source, removeSelfLoops) <==>
      (exists i :: 0 <= i < k && ids[ts[i].0] == t) && !Dropped(t, source, removeSelfLoops)
  {
    if k > 0 {
      AccumulatedSupport(ts, ids, k - 1, source, removeSelfLoops);
      var t := ids[ts[k - 1].0];
      forall u | (exists i :: 0 <= i < k && ids[ts[i].0] == u) && !Dropped(u, source, removeSelfLoops)
        ensures u in Accumulated(ts, ids, k, source, removeSelfLoops)
      {
        var i :| 0 <= i < k && ids[ts[i].0] == u;
        if i < k - 1 {
          assert u in Accumulated(ts, ids, k - 1, source, removeSelfLoops);
        }
      }
    }
  }

  /** The stored distribution's support is exactly the ids of the choice's
      targets, less the source when self-loops are removed. */
  lemma BuiltSupport<S>(ts: seq<(S, real)>, ids: map<S, nat>, source: nat, removeSelfLoops: bool)
    requires Known(ts, ids)
    ensures forall t :: t in Built(ts, ids, source, removeSelfLoops) <==>
      (exists i :: 0 <= i < |ts| && ids[ts[i].0] == t) && !Dropped(t, source, removeSelfLoops)
    ensures removeSelfLoops ==> source !in Built(ts, ids, source, removeSelfLoops)
  {
    AccumulatedSupport(ts, ids, |ts|, source, removeSelfLoops);
  }

  /** The total of the first `k` weights. */
  function WeightSum<S>(ts: seq<(S, real)>, k: nat): real
    requires k <= |ts|
  {
    if k == 0 then 0.0 else WeightSum(ts, k - 1) + ts[k - 1].1
  }

  /** A generator choice: positive weights that sum to one. */
  ghost predicate Proper<S>(c: Choice<S>) {
    (forall i :: 0 <= i < |c.transitions| ==> c.transitions[i].1 > 0.0)
    && WeightSum(c.transitions, |c.transitions|) == 1.0
  }

  lemma {:induction false} AccumulatedWeights<S>(ts: seq<(S, real)>, ids: map<S, nat>, k: nat, source: nat, removeSelfLoops: bool)
    requires k <= |ts| && Known(ts, ids)
    requires forall i :: 0 <= i < |ts| ==> ts[i].1 > 0.0
    ensures Positive(Accumulated(ts, ids, k, source, removeSelfLoops))
    ensures !SkippedAny(ts, ids, k, source, removeSelfLoops) ==>
      Sum(Accumulated(ts, ids, k, source, removeSelfLoops)) == WeightSum(ts, k)
  {
    if k > 0 {
      AccumulatedWeights(ts, ids, k - 1, source, removeSelfLoops);
      var prev := Accumulated(ts, ids, k - 1, source, removeSelfLoops);
      var t := ids[ts[k - 1].0];
      if !Dropped(t, source, removeSelfLoops) {
        SumAddTo(prev, t, ts[k - 1].1);
      }
    }
  }

  /** For a proper choice the stored distribution is empty or sums to one,
      as `exploreState` asserts. */
  lemma BuiltStochastic<S>(c: Choice<S>, ids: map<S, nat>, source: nat, removeSelfLoops: bool)
    requires Known(c.transitions, ids) && Proper(c)
    ensures Stochastic(Built(c.transitions, ids, source, removeSelfLoops))
    ensures Positive(Built(c.transitions, ids, source, removeSelfLoops))
  {
    var ts := c.transitions;
    AccumulatedWeights(ts, ids, |ts|, source, removeSelfLoops);
    if SkippedAny(ts, ids, |ts|, source, removeSelfLoops) {
      ScaledStochastic(Accumulated(ts, ids, |ts|, source, removeSelfLoops));
    }
  }

  /** Without self-loop removal the stored distribution is exactly the
      builder's sum of the weights. */
  lemma BuiltKeepsWeights<S>(c: Choice<S>, ids: map<S, nat>, source: nat)
    requires Known(c.transitions, ids)
    ensures Built(c.transitions, ids, source, false) == Accumulated(c.transitions, ids, |c.transitions|, source, false)
  {
  }

  /** The builder loop of `exploreState` for one choice: each successor gets
      an id (new ones in first-seen order), then its weight is added unless
      it is a dropped self-loop; the result is rescaled if one was dropped.
      `rest` stands for the successors that later choices will name. */
  method BuildChoice<S>(index: StateIndex<S>, model: Model, source: nat, removeSelfLoops: bool,
                        ts: seq<(S, real)>, ghost rest: seq<S>) returns (d: Distribution)
    requires index.Valid() && model.Valid() && |model.actions| == |index.states| && source < |index.states|
    modifies index, model
    ensures index.Valid() && model.Valid() && |model.actions| == |index.states|
    ensures model.initialStates == old(model.initialStates)
    ensures Extends(old(index.ids), index.ids) && Known(ts, index.ids)
    ensures d == Built(ts, index.ids, source, removeSelfLoops)
    ensures forall t :: t in d ==> t < |model.actions|
    ensures index.states + Unseen(index.ids.Keys, rest) ==
            old(index.states) + Unseen(old(index.ids).Keys, Targets(ts) + rest)
    ensures ModelGrown(old(model.actions), model.actions)
  {
    var builder: Distribution := map[];
    var skipped := false;
    var k := 0;
    while k < |ts|
      invariant index.Valid() && model.Valid() && |model.actions| == |index.states|
      invariant model.initialStates == old(model.initialStates)
      invariant Building(ts, rest, source, removeSelfLoops, old(index.ids), old(index.states), old(model.actions),
                         index.ids, index.states, model.actions, k, builder, skipped)
      decreases |ts| - k
    {
      ghost var ids1, states1, acts1 := index.ids, index.states, model.actions;
      var builder', skipped' := BuildStep(index, model, source, removeSelfLoops, ts, k, builder, skipped, rest);
      BuildingStep(ts, rest, source, removeSelfLoops, old(index.ids), old(index.states), old(model.actions),
                   ids1, states1, acts1, index.ids, index.states, model.actions, k, builder, skipped, builder', skipped');
      builder, skipped := builder', skipped';
      k := k + 1;
    }
    assert Targets(ts)[k..] + rest == rest;
    d := if skipped then Scaled(builder) else builder;
    BuiltBelow(ts, index.states, index.ids, source, removeSelfLoops);
  }

  /** The state of the builder loop after the first `k` successors: they
      have ids, the builder holds their accumulated weights and `skipped`
      says whether one was dropped; ids are only added, new states are
      appended in first-seen order, and the model only grows. */
  ghost predicate Building<S>(ts: seq<(S, real)>, rest: seq<S>, source: nat, removeSelfLoops: bool,
                              ids0: map<S, nat>, states0: seq<S>, acts0: seq<seq<Action>>,
                              ids: map<S, nat>, states: seq<S>, acts: seq<seq<Action>>,
                              k: nat, builder: Distribution, skipped: bool)
  {
    && k <= |ts| && Extends(ids0, ids) && KnownUpTo(ts, ids, k)
    && builder == Accumulated(ts, ids, k, source, removeSelfLoops)
    && (skipped <==> SkippedAny(ts, ids, k, source, removeSelfLoops))
    && states + Unseen(ids.Keys, Targets(ts)[k..] + rest) == states0 + Unseen(ids0.Keys, Targets(ts) + rest)
    && ModelGrown(acts0, acts)
  }

  /** One pass of the builder loop keeps `Building`. */
  lemma BuildingStep<S>(ts: seq<(S, real)>, rest: seq<S>, source: nat, removeSelfLoops: bool,
                        ids0: map<S, nat>, states0: seq<S>, acts0: seq<seq<Action>>,
                        ids1: map<S, nat>, states1: seq<S>, acts1: seq<seq<Action>>,
                        ids2: map<S, nat>, states2: seq<S>, acts2: seq<seq<Action>>,
                        k: nat, builder: Distribution, skipped: bool, builder': Distribution, skipped': bool)
    requires Building(ts, rest, source, removeSelfLoops, ids0, states0, acts0, ids1, states1, acts1, k, builder, skipped)
    requires k < |ts| && Extends(ids1, ids2) && KnownUpTo(ts, ids2, k + 1) && ModelGrown(acts1, acts2)
    requires builder' == Accumulated(ts, ids2, k + 1, source, removeSelfLoops)
    requires skipped' <==> SkippedAny(ts, ids2, k + 1, source, removeSelfLoops)
    requires states2 + Unseen(ids2.Keys, Targets(ts)[k + 1..] + rest) == states1 + Unseen(ids1.Keys, Targets(ts)[k..] + rest)
    ensures Building(ts, rest, source, removeSelfLoops, ids0, states0, acts0, ids2, states2, acts2, k + 1, builder', skipped')
  {
    ModelGrownTrans(acts0, acts1, acts2);
  }

  /** One pass of the builder loop: the id of the `k`-th successor, and
      its weight added unless it is a dropped self-loop. */
  method BuildStep<S>(index: StateIndex<S>, model: Model, source: nat, removeSelfLoops: bool,
                      ts: seq<(S, real)>, k: nat, builder: Distribution, skipped: bool, ghost rest: seq<S>)
    returns (builder': Distribution, skipped': bool)
    requires k < |ts|
    requires index.Valid() && model.Valid() && |model.actions| == |index.states|
    requires KnownUpTo(ts, index.ids, k)
    requires builder == Accumulated(ts, index.ids, k, source, removeSelfLoops)
    requires skipped <==> SkippedAny(ts, index.ids, k, source, removeSelfLoops)
    modifies index, model
    ensures index.Valid() && model.Valid() && |model.actions| == |index.states|
    ensures model.initialStates == old(model.initialStates)
    ensures Extends(old(index.ids), index.ids)
    ensures KnownUpTo(ts, index.ids, k + 1)
    ensures builder' == Accumulated(ts, index.ids, k + 1, source, removeSelfLoops)
    ensures skipped' <==> SkippedAny(ts, index.ids, k + 1, source, removeSelfLoops)
    ensures index.states + Unseen(index.ids.Keys, Targets(ts)[k + 1..] + rest) ==
            old(index.states) + Unseen(old(index.ids).Keys, Targets(ts)[k..] + rest)
    ensures ModelGrown(old(model.actions), model.actions)
  {
    var (state, p) := ts[k];
    var target := index.GetStateId(state, model);
    ghost var tail := Targets(ts)[k + 1..] + rest;
    TargetsSplit(ts, k, rest);
    UnseenIndexStep(old(index.states), old(index.ids), index.states, index.ids, state, target, tail);
    AccumulatedStep(ts, old(index.ids), index.ids, k, source, removeSelfLoops);
    if Dropped(target, source, removeSelfLoops) {
      builder', skipped' := builder, true;
    } else {
      builder', skipped' := AddTo(builder, target, p), skipped;
    }
  }

  /** The successors from the `k`-th on: the `k`-th, then the rest. */
  lemma TargetsSplit<S>(ts: seq<(S, real)>, k: nat, rest: seq<S>)
    requires k < |ts|
    ensures Targets(ts)[k..] + rest == [ts[k].0] + (Targets(ts)[k + 1..] + rest)
  {
    var a, b := Targets(ts)[k..] + rest, [ts[k].0] + (Targets(ts)[k + 1..] + rest);
    assert |a| == |b|;
    forall i | 0 <= i < |a| ensures a[i] == b[i] {
      if i == 0 {
      } else if i < |ts| - k {
        assert a[i] == Targets(ts)[k + i];
        assert b[i] == Targets(ts)[k + 1..][i - 1];
      } else {
        assert a[i] == rest[i - (|ts| - k)];
        assert b[i] == (Targets(ts)[k + 1..] + rest)[i - 1];
      }
    }
  }

  /** Looking up one state keeps the discovery order. */
  lemma UnseenIndexStep<S>(states0: seq<S>, ids0: map<S, nat>, states: seq<S>, ids: map<S, nat>,
                           state: S, id: nat, tail: seq<S>)
    requires ids == ids0[state := id]
    requires state in ids0 ==> id == ids0[state] && states == states0
    requires state !in ids0 ==> states == states0 + [state]
    ensures states + Unseen(ids.Keys, tail) == states0 + Unseen(ids0.Keys, [state] + tail)
  {
    UnseenStep(ids0.Keys, state, tail);
    assert ids.Keys == ids0.Keys + {state};
    if state in ids0 {
      assert ids.Keys == ids0.Keys;
    } else {
      assert states + Unseen(ids.Keys, tail) == states0 + ([state] + Unseen(ids.Keys, tail));
    }
  }

  /** Every target of a stored distribution is an indexed state. */
  lemma BuiltBelow<S>(ts: seq<(S, real)>, states: seq<S>, ids: map<S, nat>, source: nat, removeSelfLoops: bool)
    requires Indexes(states, ids) && Known(ts, ids)
    ensures forall t :: t in Built(ts, ids, source, removeSelfLoops) ==> t < |states|
  {
    AccumulatedSupport(ts, ids, |ts|, source, removeSelfLoops);
  }

  // ---------------------------------------------------------------------
  // Exploring a state

  /** The successors of the first `k` choices have ids. */
  ghost predicate AllKnownUpTo<S>(cs: seq<Choice<S>>, ids: map<S, nat>, k: nat) {
    forall i :: 0 <= i < k && i < |cs| ==> Known(cs[i].transitions, ids)
  }

  /** The actions that exploring a state builds from its first `k`
      choices: one per choice, in order, with the choice's label. */
  ghost function ExploredActions<S>(cs: seq<Choice<S>>, ids: map<S, nat>, k: nat, source: nat,
                                    removeSelfLoops: bool): (r: seq<Action>)
    requires k <= |cs| && AllKnownUpTo(cs, ids, k)
    ensures |r| == k
  {
    if k == 0 then []
    else
      ExploredActions(cs, ids, k - 1, source, removeSelfLoops)
        + [Action(Built(cs[k - 1].transitions, ids, source, removeSelfLoops), cs[k - 1].choiceLabel)]
  }

  lemma {:induction false} ExploredActionsSpec<S>(cs: seq<Choice<S>>, ids: map<S, nat>, k: nat, source: nat,
                                                  removeSelfLoops: bool)
    requires k <= |cs| && AllKnownUpTo(cs, ids, k)
    ensures forall i :: 0 <= i < k ==>
      && ExploredActions(cs, ids, k, source, removeSelfLoops)[i].actionLabel == cs[i].choiceLabel
      && ExploredActions(cs, ids, k, source, removeSelfLoops)[i].distribution ==
         Built(cs[i].transitions, ids, source, removeSelfLoops)
  {
    if k > 0 {
      ExploredActionsSpec(cs, ids, k - 1, source, removeSelfLoops);
      var prev := ExploredActions(cs, ids, k - 1, source, removeSelfLoops);
      var last := Action(Built(cs[k - 1].transitions, ids, source, removeSelfLoops), cs[k - 1].choiceLabel);
      var r := ExploredActions(cs, ids, k, source, removeSelfLoops);
      assert r == prev + [last];
      forall i | 0 <= i < k ensures r[i] == if i < k - 1 then prev[i] else last {
      }
    }
  }

  /** With self-loop removal no explored action leads back to its state. */
  lemma ExploredAvoidsSource<S>(cs: seq<Choice<S>>, ids: map<S, nat>, source: nat)
    requires AllKnownUpTo(cs, ids, |cs|)
    ensures forall i :: 0 <= i < |cs| ==> source !in ExploredActions(cs, ids, |cs|, source, true)[i].distribution
  {
    ExploredActionsSpec(cs, ids, |cs|, source, true);
    forall i | 0 <= i < |cs| ensures source !in Built(cs[i].transitions, ids, source, true) {
      BuiltSupport(cs[i].transitions, ids, source, true);
    }
  }

  /** For proper generator choices every explored action is empty or sums
      to one. */
  lemma ExploredStochastic<S>(cs: seq<Choice<S>>, ids: map<S, nat>, source: nat, removeSelfLoops: bool)
    requires AllKnownUpTo(cs, ids, |cs|)
    requires forall i :: 0 <= i < |cs| ==> Proper(cs[i])
    ensures forall i :: 0 <= i < |cs| ==>
      Stochastic(ExploredActions(cs, ids, |cs|, source, removeSelfLoops)[i].distribution)
  {
    ExploredActionsSpec(cs, ids, |cs|, source, removeSelfLoops);
    forall i | 0 <= i < |cs| ensures Stochastic(Built(cs[i].transitions, ids, source, removeSelfLoops)) {
      BuiltStochastic(cs[i], ids, source, removeSelfLoops);
    }
  }

  lemma {:induction false} ExploredExtends<S>(cs: seq<Choice<S>>, ids: map<S, nat>, later: map<S, nat>, k: nat,
                                              source: nat, removeSelfLoops: bool)
    requires k <= |cs| && AllKnownUpTo(cs, ids, k) && Extends(ids, later)
    ensures AllKnownUpTo(cs, later, k)
    ensures ExploredActions(cs, ids, k, source, removeSelfLoops) == ExploredActions(cs, later, k, source, removeSelfLoops)
  {
    if k > 0 {
      ExploredExtends(cs, ids, later, k - 1, source, removeSelfLoops);
      BuiltExtends(cs[k - 1].transitions, ids, later, source, removeSelfLoops);
    }
  }

  /** `after` is `before` with `added` appended to the list of `s` and new,
      still action-less states at the end. */
  ghost predicate Appended(before: seq<seq<Action>>, after: seq<seq<Action>>, s: nat, added: seq<Action>) {
    && s < |before| <= |after|
    && after[s] == before[s] + added
    && (forall t :: 0 <= t < |before| && t != s ==> after[t] == before[t])
    && (forall t :: |before| <= t < |after| ==> after[t] == [])
  }

  /** One pass of an explore loop: the choice's successors got ids, and the
      actions built so far do not depend on the ids added meanwhile. */
  lemma ExploreStep<S>(cs: seq<Choice<S>>, j: nat, ids0: map<S, nat>, ids: map<S, nat>,
                       states0: seq<S>, states: seq<S>, start: seq<S>, old0: set<S>,
                       source: nat, removeSelfLoops: bool)
    requires j < |cs| && AllKnownUpTo(cs, ids0, j) && Extends(ids0, ids) && Known(cs[j].transitions, ids)
    requires states0 + Unseen(ids0.Keys, AllTargets(cs[j..])) == start + Unseen(old0, AllTargets(cs))
    requires states + Unseen(ids.Keys, AllTargets(cs[j + 1..])) ==
             states0 + Unseen(ids0.Keys, Targets(cs[j].transitions) + AllTargets(cs[j + 1..]))
    ensures AllKnownUpTo(cs, ids, j + 1)
    ensures ExploredActions(cs, ids, j + 1, source, removeSelfLoops) ==
      ExploredActions(cs, ids0, j, source, removeSelfLoops)
        + [Action(Built(cs[j].transitions, ids, source, removeSelfLoops), cs[j].choiceLabel)]
    ensures states + Unseen(ids.Keys, AllTargets(cs[j + 1..])) == start + Unseen(old0, AllTargets(cs))
  {
    ExploredExtends(cs, ids0, ids, j, source, removeSelfLoops);
    assert cs[j..][0] == cs[j] && cs[j..][1..] == cs[j + 1..];
  }

  /** After `j` choices: their successors have ids, and the states new
      since `start` were indexed in first-seen order. */
  ghost predicate ExploringAfter<S>(cs: seq<Choice<S>>, j: nat, states: seq<S>, ids: map<S, nat>,
                                    start: seq<S>, known: set<S>)
  {
    && j <= |cs|
    && AllKnownUpTo(cs, ids, j)
    && states + Unseen(ids.Keys, AllTargets(cs[j..])) == start + Unseen(known, AllTargets(cs))
  }

  /** Exploring `source` with choices `cs` indexed every successor in
      first-seen order, kept every earlier id, and appended `added` to the
      actions of `source` and empty lists for the new states. */
  ghost predicate Explored<S>(cs: seq<Choice<S>>, ids0: map<S, nat>, ids: map<S, nat>, states0: seq<S>, states: seq<S>,
                              before: seq<seq<Action>>, after: seq<seq<Action>>, source: nat, added: seq<Action>)
  {
    && Extends(ids0, ids)
    && AllKnownUpTo(cs, ids, |cs|)
    && states == states0 + Unseen(ids0.Keys, AllTargets(cs))
    && Appended(before, after, source, added)
  }

  /** At the end of an explore loop every successor was indexed. */
  lemma ExploringDone<S>(cs: seq<Choice<S>>, states: seq<S>, ids: map<S, nat>, start: seq<S>, known: set<S>)
    requires ExploringAfter(cs, |cs|, states, ids, start, known)
    ensures states == start + Unseen(known, AllTargets(cs))
  {
    assert cs[|cs|..] == [];
  }

  /** The builder loop for the `j`-th choice of an explore loop. */
  method ExploreChoice<S>(index: StateIndex<S>, model: Model, source: nat, removeSelfLoops: bool,
                          cs: seq<Choice<S>>, j: nat, ghost start: seq<S>, ghost known: set<S>)
    returns (d: Distribution)
    requires j < |cs| && source < |index.states|
    requires index.Valid() && model.Valid() && |model.actions| == |index.states|
    requires ExploringAfter(cs, j, index.states, index.ids, start, known)
    modifies index, model
    ensures index.Valid() && model.Valid() && |model.actions| == |index.states|
    ensures model.initialStates == old(model.initialStates)
    ensures Extends(old(index.ids), index.ids) && ModelGrown(old(model.actions), model.actions)
    ensures ExploringAfter(cs, j + 1, index.states, index.ids, start, known)
    ensures d == Built(cs[j].transitions, index.ids, source, removeSelfLoops)
    ensures forall t :: t in d ==> t < |model.actions|
    ensures ExploredActions(cs, index.ids, j + 1, source, removeSelfLoops) ==
            ExploredActions(cs, old(index.ids), j, source, removeSelfLoops) + [Action(d, cs[j].choiceLabel)]
  {
    d := BuildChoice(index, model, source, removeSelfLoops, cs[j].transitions, AllTargets(cs[j + 1..]));
    ExploreStep(cs, j, old(index.ids), index.ids, old(index.states), index.states, start, known,
                source, removeSelfLoops);
  }

  lemma AppendedGrown(a0: seq<seq<Action>>, a1: seq<seq<Action>>, a2: seq<seq<Action>>, s: nat, added: seq<Action>)
    requires Appended(a0, a1, s, added) && ModelGrown(a1, a2)
    ensures Appended(a0, a2, s, added)
  {
  }

  lemma AppendedAdd(a0: seq<seq<Action>>, a1: seq<seq<Action>>, s: nat, added: seq<Action>, x: Action)
    requires Appended(a0, a1, s, added)
    ensures Appended(a0, a1[s := a1[s] + [x]], s, added + [x])
  {
  }

  // ---------------------------------------------------------------------
  // Successor counts of the learning explorers

  /** How often each successor of one (state, action) pair was observed. */
  type Counts = map<nat, nat>

  /** The number of observations: the sum of all counts. */
  function Total(c: Counts): nat
    decreases |c|
  {
    if c == map[] then 0
    else
      var k := Least(c.Keys);
      assert |c - {k}| < |c| by { assert (c - {k}).Keys < c.Keys; }
      c[k] + Total(c - {k})
  }

  lemma {:induction false} TotalRemove(c: Counts, k: nat)
    requires k in c
    ensures Total(c) == c[k] + Total(c - {k})
    decreases |c|
  {
    var j := Least(c.Keys);
    if j != k {
      var cj, ck := c - {j}, c - {k};
      assert |cj| < |c| by { assert cj.Keys < c.Keys; }
      assert |ck| < |c| by { assert ck.Keys < c.Keys; }
      TotalRemove(cj, k);
      TotalRemove(ck, j);
      assert cj - {k} == ck - {j};
    }
  }

  /** The count of `t`, zero when it was never observed. */
  function CountOf(c: Counts, t: nat): nat {
    if t in c then c[t] else 0
  }

  /** Adding `n` observations of `t`. */
  function Bump(c: Counts, t: nat, n: nat): (r: Counts)
    ensures r.Keys == c.Keys + {t} && r[t] == CountOf(c, t) + n
    ensures forall u :: u in c && u != t ==> r[u] == c[u]
  {
    c[t := CountOf(c, t) + n]
  }

  lemma TotalBump(c: Counts, t: nat, n: nat)
    ensures Total(Bump(c, t, n)) == Total(c) + n
  {
    var r := Bump(c, t, n);
    TotalRemove(r, t);
    assert r - {t} == c - {t};
    if t in c {
      TotalRemove(c, t);
    } else {
      assert c - {t} == c;
    }
  }

  /** The counts as real weights. */
  function Weights(c: Counts): (r: Distribution)
    ensures r.Keys == c.Keys
  {
    map t | t in c :: c[t] as real
  }

  lemma {:induction false} TotalWeights(c: Counts)
    ensures Total(c) as real == Sum(Weights(c))
    decreases |c|
  {
    if c != map[] {
      var k := Least(c.Keys);
      assert MinKey(Weights(c)) == k;
      assert Weights(c) - {k} == Weights(c - {k});
      assert |c - {k}| < |c| by { assert (c - {k}).Keys < c.Keys; }
      TotalWeights(c - {k});
    }
  }

  /** A count divided by the total. The Java code divides by a double, so an
      all-zero table would give NaN; here such a ratio is zero. */
  function Ratio(count: nat, total: nat): real {
    if total == 0 then 0.0 else count as real / total as real
  }

  /** The distribution learned from successor counts of an action of
      `source`: every target's share of the total, the source dropped when
      self-loops are removed and the rest then rescaled. */
  function FromCounts(c: Counts, source: nat, removeSelfLoops: bool): (d: Distribution)
    ensures forall t :: t in d <==> t in c && !Dropped(t, source, removeSelfLoops)
  {
    var kept := map t | t in c && !Dropped(t, source, removeSelfLoops) :: Ratio(c[t], Total(c));
    if removeSelfLoops && source in c then Scaled(kept) else kept
  }

  /** Without a dropped self-loop every target gets exactly its share. */
  lemma FromCountsShares(c: Counts, source: nat, removeSelfLoops: bool, t: nat)
    requires t in c && !(removeSelfLoops && source in c)
    ensures FromCounts(c, source, removeSelfLoops)[t] == Ratio(c[t], Total(c))
  {
  }

  /** Learned distributions over positive counts are stochastic (the
      assertion of `getDistributionFromCounts`). */
  lemma FromCountsStochastic(c: Counts, source: nat, removeSelfLoops: bool)
    requires forall t :: t in c ==> c[t] > 0
    ensures Stochastic(FromCounts(c, source, removeSelfLoops))
    ensures Positive(FromCounts(c, source, removeSelfLoops))
  {
    var total := Total(c);
    var kept := map t | t in c && !Dropped(t, source, removeSelfLoops) :: Ratio(c[t], total);
    if c != map[] {
      var k := Least(c.Keys);
      TotalRemove(c, k);
      assert total > 0;
      assert Positive(kept);
      if removeSelfLoops && source in c {
        ScaledStochastic(kept);
      } else {
        TotalWeights(c);
        assert kept == Scale(Weights(c), total as real);
        SumScale(Weights(c), total as real);
        DivSelf(total as real);
      }
    }
  }

  /** The loop of `getDistributionFromCounts`: every observed target in
      the order the count table enumerates them. */
  method DistributionFromCounts(c: Counts, source: nat, removeSelfLoops: bool) returns (d: Distribution)
    ensures d == FromCounts(c, source, removeSelfLoops)
  {
    var total := Total(c);
    var builder: Distribution := map[];
    var skipped := false;
    var todo := c.Keys;
    while todo != {}
      invariant todo <= c.Keys
      invariant forall t :: t in builder <==> t in c && t !in todo && !Dropped(t, source, removeSelfLoops)
      invariant forall t :: t in builder ==> builder[t] == Ratio(c[t], total)
      invariant skipped <==> removeSelfLoops && source in c && source !in todo
      decreases todo
    {
      var t :| t in todo;
      var p := Ratio(c[t], total);
      if Dropped(t, source, removeSelfLoops) {
        skipped := true;
      } else {
        builder := AddTo(builder, t, p);
      }
      todo := todo - {t};
    }
    assert builder == map t | t in c && !Dropped(t, source, removeSelfLoops) :: Ratio(c[t], total);
    d := if skipped then Scaled(builder) else builder;
  }

  // ---------------------------------------------------------------------
  // Sub-lists of actions

  /** The elements of `xs` at the indices in `keep`, in order. */
  function Select<T>(xs: seq<T>, keep: set<nat>): seq<T> {
    if xs == [] then []
    else Select(xs[..|xs| - 1], keep) + (if |xs| - 1 in keep then [xs[|xs| - 1]] else [])
  }

  /** The indices below `n` that are in `keep`, ascending. */
  function SelectedIndices(n: nat, keep: set<nat>): seq<nat> {
    if n == 0 then []
    else SelectedIndices(n - 1, keep) + (if n - 1 in keep then [n - 1] else [])
  }

  /** `r` lists `xs` at the strictly increasing indices `idx`, which are
      exactly the indices of `xs` in `keep`. */
  ghost predicate Picks<T>(r: seq<T>, xs: seq<T>, idx: seq<nat>, keep: set<nat>) {
    && |r| == |idx|
    && (forall k :: 0 <= k < |idx| ==> idx[k] < |xs| && r[k] == xs[idx[k]])
    && (forall a, b :: 0 <= a < b < |idx| ==> idx[a] < idx[b])
    && (forall i :: 0 <= i < |xs| ==> (i in keep <==> i in idx))
  }

  lemma {:induction false} SelectPicks<T>(xs: seq<T>, keep: set<nat>)
    ensures Picks(Select(xs, keep), xs, SelectedIndices(|xs|, keep), keep)
  {
    if xs != [] {
      var n := |xs| - 1;
      var init := xs[..n];
      SelectPicks(init, keep);
      var r0, idx0 := Select(init, keep), SelectedIndices(n, keep);
      var r, idx := Select(xs, keep), SelectedIndices(n + 1, keep);
      assert forall k :: 0 <= k < |idx0| ==> idx0[k] < n && r0[k] == xs[idx0[k]];
      if n in keep {
        assert r == r0 + [xs[n]] && idx == idx0 + [n];
        assert forall k :: 0 <= k < |idx| ==> idx[k] < |xs| && r[k] == xs[idx[k]] by {
          forall k | 0 <= k < |idx| ensures idx[k] < |xs| && r[k] == xs[idx[k]] {
            if k < |idx0| { assert idx[k] == idx0[k] && r[k] == r0[k]; }
          }
        }
      } else {
        assert r == r0 && idx == idx0;
      }
    }
  }

  lemma SelectedIndicesInKeep(n: nat, keep: set<nat>, k: nat)
    requires k < |SelectedIndices(n, keep)|
    ensures SelectedIndices(n, keep)[k] in keep
  {
    if n > 0 && k < |SelectedIndices(n - 1, keep)| {
      SelectedIndicesInKeep(n - 1, keep, k);
    }
  }

  /** One more element either joins the selection or does not. */
  lemma SelectSnoc<T>(xs: seq<T>, i: nat, keep: set<nat>)
    requires i < |xs|
    ensures Select(xs[..i + 1], keep) == Select(xs[..i], keep) + (if i in keep then [xs[i]] else [])
    ensures SelectedIndices(i + 1, keep) == SelectedIndices(i, keep) + (if i in keep then [i] else [])
  {
    assert xs[..i + 1][..i] == xs[..i];
  }

  lemma SelectLength<T>(xs: seq<T>, keep: set<nat>)
    ensures |Select(xs, keep)| == |SelectedIndices(|xs|, keep)|
  {
    SelectPicks(xs, keep);
  }
}
