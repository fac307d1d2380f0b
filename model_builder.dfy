/** `ModelBuilder.build`: breadth-first construction of the model of a
    generator. Every discovered state receives the next model id once and
    is queued once; a dequeued state receives one unlabelled choice per
    generator choice, whose distribution adds up the weights of the
    successors under their ids. */
module ModelBuilders {
  import opened NatSets
  import opened Distributions
  import opened Models
  import opened Explorers

  /** The state-to-id map that `build` fills and returns. */
  class StateToIndex<S(==)> {
    var ids: map<S, nat>

    constructor ()
      ensures ids == map[]
    {
      ids := map[];
    }

    method AddState(state: S, id: nat)
      modifies this
      ensures ids == old(ids)[state := id]
    {
      ids := ids[state := id];
    }
  }

  // ---------------------------------------------------------------------
  // Specification

  /** `states` lists the indexed states in id order: the `i`-th has id
      `base + i`, and no other state has an id. */
  ghost predicate IndexedFrom<S>(states: seq<S>, ids: map<S, nat>, base: nat) {
    && (forall s :: s in ids ==> base <= ids[s] < base + |states| && states[ids[s] - base] == s)
    && (forall i :: 0 <= i < |states| ==> states[i] in ids && ids[states[i]] == base + i)
  }

  /** `t` is a successor of `s` in some choice of the generator. */
  ghost predicate Successor<S>(gen: Generator<S>, s: S, t: S) {
    exists j, k :: 0 <= j < |gen.choices(s)| && 0 <= k < |gen.choices(s)[j].transitions| &&
      gen.choices(s)[j].transitions[k].0 == t
  }

  /** `space` holds the initial states and is closed under successors: it
      witnesses that the reachable part of the generator is finite. */
  ghost predicate Closed<S>(gen: Generator<S>, space: set<S>) {
    && (forall i :: 0 <= i < |gen.initialStates| ==> gen.initialStates[i] in space)
    && (forall s, j, k :: s in space && 0 <= j < |gen.choices(s)| && 0 <= k < |gen.choices(s)[j].transitions| ==>
          gen.choices(s)[j].transitions[k].0 in space)
  }

  /** `path` starts in an initial state and follows successors. */
  ghost predicate Path<S>(gen: Generator<S>, path: seq<S>) {
    && |path| > 0 && path[0] in gen.initialStates
    && forall i :: 0 <= i < |path| - 1 ==> Successor(gen, path[i], path[i + 1])
  }

  /** The distribution `build` makes of weighted successors `ts`: the
      weights added up under the successors' ids (the builder loop of the
      explorers, with no self-loop removed). */
  ghost function Summed<S>(ts: seq<(S, real)>, ids: map<S, nat>): Distribution
    requires Known(ts, ids)
  {
    Accumulated(ts, ids, |ts|, 0, false)
  }

  /** The choices `build` adds for a state with generator choices `cs`:
      one unlabelled action per choice, in order. */
  ghost function BuiltActions<S>(cs: seq<Choice<S>>, ids: map<S, nat>, k: nat): (r: seq<Action>)
    requires k <= |cs| && AllKnownUpTo(cs, ids, k)
    ensures |r| == k
  {
    if k == 0 then []
    else BuiltActions(cs, ids, k - 1) + [Action(Summed(cs[k - 1].transitions, ids), None)]
  }

  /** The ids `base`, ..., `base + n - 1`. */
  ghost function IdRange(base: nat, n: nat): set<nat> {
    Below(base + n) - Below(base)
  }

  /** The ids of the states of `init`. */
  ghost function InitialIds<S>(init: seq<S>, ids: map<S, nat>): set<nat> {
    set s | s in init && s in ids :: ids[s]
  }

  /** The first `p` states are processed: their successors have ids and
      their lists hold the built actions. */
  ghost predicate Processed<S>(gen: Generator<S>, states: seq<S>, ids: map<S, nat>, acts: seq<seq<Action>>,
                               base: nat, p: nat)
  {
    && p <= |states| && base + |states| <= |acts|
    && forall i :: 0 <= i < p ==>
         && AllKnownUpTo(gen.choices(states[i]), ids, |gen.choices(states[i])|)
         && acts[base + i] == BuiltActions(gen.choices(states[i]), ids, |gen.choices(states[i])|)
  }

  /** The states from `p` on have no choices yet. */
  ghost predicate Pending<S>(states: seq<S>, acts: seq<seq<Action>>, base: nat, p: nat) {
    forall n :: base + p <= n < base + |states| && n < |acts| ==> acts[n] == []
  }

  // ---------------------------------------------------------------------
  // Properties of the specification

  lemma {:induction false} BuiltActionsExtends<S>(cs: seq<Choice<S>>, ids: map<S, nat>, later: map<S, nat>, k: nat)
    requires k <= |cs| && AllKnownUpTo(cs, ids, k) && Extends(ids, later)
    ensures AllKnownUpTo(cs, later, k)
    ensures BuiltActions(cs, ids, k) == BuiltActions(cs, later, k)
  {
    if k > 0 {
      BuiltActionsExtends(cs, ids, later, k - 1);
      AccumulatedExtends(cs[k - 1].transitions, ids, later, |cs[k - 1].transitions|, 0, false);
    }
  }

  lemma {:induction false} BuiltActionsSpec<S>(cs: seq<Choice<S>>, ids: map<S, nat>, k: nat)
    requires k <= |cs| && AllKnownUpTo(cs, ids, k)
    ensures forall i :: 0 <= i < k ==>
      BuiltActions(cs, ids, k)[i] == Action(Summed(cs[i].transitions, ids), None)
  {
    if k > 0 {
      BuiltActionsSpec(cs, ids, k - 1);
    }
  }

  /** Each built action has as support exactly the ids of the choice's
      successors, and for a proper generator choice its weights sum to
      one. */
  lemma BuiltActionsMeaning<S>(cs: seq<Choice<S>>, ids: map<S, nat>)
    requires AllKnownUpTo(cs, ids, |cs|)
    ensures forall i, t :: 0 <= i < |cs| ==>
      (t in BuiltActions(cs, ids, |cs|)[i].distribution <==>
         exists k :: 0 <= k < |cs[i].transitions| && ids[cs[i].transitions[k].0] == t)
    ensures forall i :: 0 <= i < |cs| && Proper(cs[i]) ==> Sum(BuiltActions(cs, ids, |cs|)[i].distribution) == 1.0
  {
    BuiltActionsSpec(cs, ids, |cs|);
    forall i | 0 <= i < |cs|
      ensures forall t :: t in Summed(cs[i].transitions, ids) <==>
        exists k :: 0 <= k < |cs[i].transitions| && ids[cs[i].transitions[k].0] == t
      ensures Proper(cs[i]) ==> Sum(Summed(cs[i].transitions, ids)) == 1.0
    {
      var ts := cs[i].transitions;
      AccumulatedSupport(ts, ids, |ts|, 0, false);
      if Proper(cs[i]) {
        AccumulatedWeights(ts, ids, |ts|, 0, false);
      }
    }
  }

  /** Every state on a path from an initial state is indexed once the index
      holds the initial states and the successors of all its states. */
  lemma {:induction false} ReachedIndexed<S>(gen: Generator<S>, ids: map<S, nat>, path: seq<S>)
    requires forall s :: s in gen.initialStates ==> s in ids
    requires forall s :: s in ids ==> AllKnownUpTo(gen.choices(s), ids, |gen.choices(s)|)
    requires Path(gen, path)
    ensures path[|path| - 1] in ids
    decreases |path|
  {
    if |path| > 1 {
      var prefix := path[..|path| - 1];
      assert Path(gen, prefix) by {
        forall i | 0 <= i < |prefix| - 1 ensures Successor(gen, prefix[i], prefix[i + 1]) {
          assert Successor(gen, path[i], path[i + 1]);
        }
      }
      ReachedIndexed(gen, ids, prefix);
      var s, t := path[|path| - 2], path[|path| - 1];
      assert Successor(gen, s, t);
      var j, k :| 0 <= j < |gen.choices(s)| && 0 <= k < |gen.choices(s)[j].transitions| &&
        gen.choices(s)[j].transitions[k].0 == t;
      assert Known(gen.choices(s)[j].transitions, ids);
    }
  }

  /** Indexing a new state gives it the next id. */
  lemma IndexStep<S>(states: seq<S>, ids: map<S, nat>, base: nat, s: S)
    requires IndexedFrom(states, ids, base) && s !in ids
    ensures IndexedFrom(states + [s], ids[s := base + |states|], base)
  {
    var states', ids' := states + [s], ids[s := base + |states|];
    forall i | 0 <= i < |states'| ensures states'[i] in ids' && ids'[states'[i]] == base + i {
      if i < |states| {
        assert states'[i] == states[i] != s;
      }
    }
  }

  lemma IdRangeStep(base: nat, n: nat)
    ensures IdRange(base, n + 1) == IdRange(base, n) + {base + n}
  {
  }

  /** The initial states come first, so their ids are the first ones. */
  lemma InitialIdsRange<S>(init: seq<S>, states: seq<S>, ids: map<S, nat>, base: nat)
    requires IndexedFrom(states, ids, base) && |init| <= |states| && states[..|init|] == init
    ensures InitialIds(init, ids) == IdRange(base, |init|)
  {
    forall i: nat | base <= i < base + |init| ensures i in InitialIds(init, ids) {
      assert states[i - base] == init[i - base];
    }
    forall i | i in InitialIds(init, ids) ensures i in IdRange(base, |init|) {
      var s :| s in init && s in ids && ids[s] == i;
      var j :| 0 <= j < |init| && init[j] == s;
      assert states[j] == s;
    }
  }

  /** Growing the index and the model keeps the processed states
      processed. */
  lemma ProcessedExtends<S>(gen: Generator<S>, states: seq<S>, states': seq<S>, ids: map<S, nat>, ids': map<S, nat>,
                            acts: seq<seq<Action>>, acts': seq<seq<Action>>, base: nat, p: nat)
    requires Processed(gen, states, ids, acts, base, p) && Extends(ids, ids')
    requires |states| <= |states'| && states'[..|states|] == states && base + |states'| <= |acts'|
    requires forall n :: base <= n < base + p ==> acts'[n] == acts[n]
    ensures Processed(gen, states', ids', acts', base, p)
  {
    forall i | 0 <= i < p
      ensures AllKnownUpTo(gen.choices(states'[i]), ids', |gen.choices(states'[i])|)
      ensures acts'[base + i] == BuiltActions(gen.choices(states'[i]), ids', |gen.choices(states'[i])|)
    {
      assert states'[i] == states[i];
      BuiltActionsExtends(gen.choices(states[i]), ids, ids', |gen.choices(states[i])|);
    }
  }

  /** A pass that indexed no new state left the index as it was; one that
      did shrank the unindexed part of the space. */
  lemma GrowthDecreases<S>(space: set<S>, states: seq<S>, states': seq<S>, ids: map<S, nat>, ids': map<S, nat>,
                           base: nat)
    requires IndexedFrom(states, ids, base) && IndexedFrom(states', ids', base) && ids'.Keys <= space
    requires |states| <= |states'| && states'[..|states|] == states
    ensures |states'| == |states| ==> ids'.Keys == ids.Keys
    ensures |states'| > |states| ==> space - ids'.Keys < space - ids.Keys
  {
    if |states'| == |states| {
      assert states' == states;
      forall s | s in ids' ensures s in ids {
        assert states'[ids'[s] - base] == s;
      }
    } else {
      var s := states'[|states|];
      assert s in ids' && s in space && ids'[s] == base + |states|;
      forall u | u in ids ensures u in ids' && ids'[u] < base + |states| {
        assert states[ids[u] - base] == u;
        assert states'[ids[u] - base] == u;
      }
      assert s in space - ids.Keys && s !in space - ids'.Keys;
    }
  }

  /** With every indexed state processed, every indexed state's successors
      are indexed and its list holds the built actions. */
  lemma AllProcessed<S>(gen: Generator<S>, states: seq<S>, ids: map<S, nat>, acts: seq<seq<Action>>, base: nat)
    requires IndexedFrom(states, ids, base) && Processed(gen, states, ids, acts, base, |states|)
    ensures forall s :: s in ids ==>
      && AllKnownUpTo(gen.choices(s), ids, |gen.choices(s)|)
      && ids[s] < |acts| && acts[ids[s]] == BuiltActions(gen.choices(s), ids, |gen.choices(s)|)
  {
    forall s | s in ids
      ensures AllKnownUpTo(gen.choices(s), ids, |gen.choices(s)|)
      ensures ids[s] < |acts| && acts[ids[s]] == BuiltActions(gen.choices(s), ids, |gen.choices(s)|)
    {
      assert states[ids[s] - base] == s;
    }
  }


  /** The bookkeeping of discovery: the index lists `states` in id order,
      extending what it was, and the queue received the new states in the
      order they were indexed. */
  ghost predicate Indexing<S>(states0: seq<S>, ids0: map<S, nat>, queue0: seq<S>, base: nat,
                              states: seq<S>, ids: map<S, nat>, queue: seq<S>)
  {
    && IndexedFrom(states, ids, base) && Extends(ids0, ids)
    && |states0| <= |states| && states[..|states0|] == states0 && queue == queue0 + states[|states0|..]
  }

  lemma IndexingRefl<S>(states: seq<S>, ids: map<S, nat>, queue: seq<S>, base: nat)
    requires IndexedFrom(states, ids, base)
    ensures Indexing(states, ids, queue, base, states, ids, queue)
  {
    assert states[|states|..] == [];
  }

  lemma IndexingTrans<S>(states0: seq<S>, ids0: map<S, nat>, queue0: seq<S>,
                         states1: seq<S>, ids1: map<S, nat>, queue1: seq<S>,
                         states2: seq<S>, ids2: map<S, nat>, queue2: seq<S>, base: nat)
    requires Indexing(states0, ids0, queue0, base, states1, ids1, queue1)
    requires Indexing(states1, ids1, queue1, base, states2, ids2, queue2)
    ensures Indexing(states0, ids0, queue0, base, states2, ids2, queue2)
  {
    assert states2[..|states1|][..|states0|] == states2[..|states0|];
    assert states2[|states0|..] == states2[|states0|..|states1|] + states2[|states1|..];
    assert states2[|states0|..|states1|] == states1[|states0|..];
  }

  /** One successor looked up: a state seen for the first time is indexed
      under the next id and queued. */
  lemma IndexingStep<S>(states0: seq<S>, ids0: map<S, nat>, queue0: seq<S>, base: nat,
                        states: seq<S>, ids: map<S, nat>, queue: seq<S>, s: S,
                        states': seq<S>, ids': map<S, nat>, queue': seq<S>)
    requires Indexing(states0, ids0, queue0, base, states, ids, queue)
    requires s in ids ==> states' == states && ids' == ids && queue' == queue
    requires s !in ids ==> states' == states + [s] && ids' == ids[s := base + |states|] && queue' == queue + [s]
    ensures Indexing(states0, ids0, queue0, base, states', ids', queue') && Extends(ids, ids') && s in ids'
  {
    if s !in ids {
      IndexStep(states, ids, base, s);
      var states' := states + [s];
      assert states'[..|states0|] == states[..|states0|];
      assert states'[|states0|..] == states[|states0|..] + [s];
    }
  }

  /** Lines 30-35: a successor seen for the first time is queued, gets a
      new model state and is indexed under it; then its id is looked up. */
  method AddSuccessor<S>(stateIndices: StateToIndex<S>, model: Model, successor: S, queue: seq<S>,
                         ghost states: seq<S>, ghost base: nat)
    returns (successorId: nat, queue': seq<S>, ghost states': seq<S>)
    requires model.Valid() && |model.actions| == base + |states|
    modifies stateIndices, model
    ensures model.Valid() && model.initialStates == old(model.initialStates)
    ensures successor in old(stateIndices.ids) ==>
      stateIndices.ids == old(stateIndices.ids) && model.actions == old(model.actions) &&
      queue' == queue && states' == states
    ensures successor !in old(stateIndices.ids) ==>
      stateIndices.ids == old(stateIndices.ids)[successor := base + |states|] &&
      model.actions == old(model.actions) + [[]] &&
      queue' == queue + [successor] && states' == states + [successor]
    ensures successor in stateIndices.ids && successorId == stateIndices.ids[successor]
  {
    queue', states' := queue, states;
    if successor !in stateIndices.ids {
      queue' := queue + [successor];
      var id := model.AddState();
      stateIndices.AddState(successor, id);
      states' := states + [successor];
    }
    successorId := stateIndices.ids[successor];
  }

  /** Lines 29-38: the loop over the transitions of one generator choice;
      the new states of the model are still empty. */
  method BuildDistribution<S>(stateIndices: StateToIndex<S>, model: Model, ts: seq<(S, real)>, queue: seq<S>,
                              ghost states: seq<S>, ghost base: nat, ghost space: set<S>)
    returns (distribution: Distribution, queue': seq<S>, ghost states': seq<S>)
    requires IndexedFrom(states, stateIndices.ids, base) && stateIndices.ids.Keys <= space
    requires forall k :: 0 <= k < |ts| ==> ts[k].0 in space
    requires model.Valid() && |model.actions| == base + |states|
    modifies stateIndices, model
    ensures Indexing(states, old(stateIndices.ids), queue, base, states', stateIndices.ids, queue')
    ensures stateIndices.ids.Keys <= space
    ensures model.Valid() && |model.actions| == base + |states'| && model.initialStates == old(model.initialStates)
    ensures ModelGrown(old(model.actions), model.actions)
    ensures Known(ts, stateIndices.ids) && distribution == Summed(ts, stateIndices.ids)
    ensures TargetsBelow(Action(distribution, None), |model.actions|)
  {
    distribution, queue', states' := map[], queue, states;
    IndexingRefl(states, stateIndices.ids, queue, base);
    var k := 0;
    while k < |ts|
      invariant model.Valid() && model.initialStates == old(model.initialStates)
      invariant Distributing(ts, states, old(stateIndices.ids), queue, base, space, old(model.actions),
                             states', stateIndices.ids, queue', model.actions, k, distribution)
      decreases |ts| - k
    {
      ghost var idsBefore, statesBefore, queueBefore, actsBefore := stateIndices.ids, states', queue', model.actions;
      var successorId;
      successorId, queue', states' := AddSuccessor(stateIndices, model, ts[k].0, queue', states', base);
      DistributingStep(ts, states, old(stateIndices.ids), queue, base, space, old(model.actions),
                       statesBefore, idsBefore, queueBefore, actsBefore, k, distribution,
                       states', stateIndices.ids, queue', model.actions, successorId);
      distribution := AddTo(distribution, successorId, ts[k].1);
      k := k + 1;
    }
    AccumulatedSupport(ts, stateIndices.ids, |ts|, 0, false);
    forall t | t in distribution ensures t < |model.actions| {
      var i :| 0 <= i < |ts| && stateIndices.ids[ts[i].0] == t;
    }
  }

  /** The state of the loop over a choice's transitions after the first
      `k`: their targets have ids, the distribution holds their summed
      weights, new states are indexed and queued, and the model only grows
      by empty lists. */
  ghost predicate Distributing<S>(ts: seq<(S, real)>, states0: seq<S>, ids0: map<S, nat>, queue0: seq<S>, base: nat,
                                  space: set<S>, acts0: seq<seq<Action>>, states: seq<S>, ids: map<S, nat>,
                                  queue: seq<S>, acts: seq<seq<Action>>, k: nat, distribution: Distribution)
  {
    && k <= |ts| && Indexing(states0, ids0, queue0, base, states, ids, queue) && ids.Keys <= space
    && |acts| == base + |states| && ModelGrown(acts0, acts)
    && KnownUpTo(ts, ids, k) && distribution == Accumulated(ts, ids, k, 0, false)
  }

  /** Adding the target of the `k`-th transition keeps `Distributing`. */
  lemma DistributingStep<S>(ts: seq<(S, real)>, states0: seq<S>, ids0: map<S, nat>, queue0: seq<S>, base: nat,
                            space: set<S>, acts0: seq<seq<Action>>,
                            states1: seq<S>, ids1: map<S, nat>, queue1: seq<S>, acts1: seq<seq<Action>>,
                            k: nat, distribution: Distribution,
                            states2: seq<S>, ids2: map<S, nat>, queue2: seq<S>, acts2: seq<seq<Action>>, id: nat)
    requires Distributing(ts, states0, ids0, queue0, base, space, acts0, states1, ids1, queue1, acts1, k, distribution)
    requires k < |ts| && ts[k].0 in space
    requires ts[k].0 in ids1 ==> ids2 == ids1 && acts2 == acts1 && queue2 == queue1 && states2 == states1
    requires ts[k].0 !in ids1 ==>
      ids2 == ids1[ts[k].0 := base + |states1|] && acts2 == acts1 + [[]] &&
      queue2 == queue1 + [ts[k].0] && states2 == states1 + [ts[k].0]
    requires ts[k].0 in ids2 && id == ids2[ts[k].0]
    ensures Distributing(ts, states0, ids0, queue0, base, space, acts0, states2, ids2, queue2, acts2, k + 1,
                         AddTo(distribution, id, ts[k].1))
  {
    IndexingStep(states0, ids0, queue0, base, states1, ids1, queue1, ts[k].0, states2, ids2, queue2);
    if ts[k].0 !in ids1 {
      GrownByOne(acts0, acts1, acts2);
    }
    AccumulatedStep(ts, ids1, ids2, k, 0, false);
  }

  /** Processing state number `p` of `states0` added its built actions,
      so the first `p + 1` states are processed. */
  lemma StateProcessed<S>(gen: Generator<S>, states0: seq<S>, ids0: map<S, nat>, acts0: seq<seq<Action>>,
                          states: seq<S>, ids: map<S, nat>, acts: seq<seq<Action>>, base: nat, p: nat)
    requires p < |states0| && |acts0| == base + |states0| && |acts| == base + |states|
    requires Processed(gen, states0, ids0, acts0, base, p) && Pending(states0, acts0, base, p)
    requires IndexedFrom(states, ids, base) && Extends(ids0, ids)
    requires |states0| <= |states| && states[..|states0|] == states0
    requires AllKnownUpTo(gen.choices(states0[p]), ids, |gen.choices(states0[p])|)
    requires Appended(acts0, acts, base + p, BuiltActions(gen.choices(states0[p]), ids, |gen.choices(states0[p])|))
    ensures Processed(gen, states, ids, acts, base, p + 1) && Pending(states, acts, base, p + 1)
    ensures forall n :: 0 <= n < base ==> acts[n] == acts0[n]
  {
    forall n | 0 <= n < |acts0| && n != base + p ensures acts[n] == acts0[n] {
    }
    ProcessedExtends(gen, states0, states, ids0, ids, acts0, acts, base, p);
    assert states[p] == states0[p] by {
      assert states[..|states0|][p] == states0[p];
    }
    assert acts0[base + p] == [];
    assert acts[base + p] == BuiltActions(gen.choices(states[p]), ids, |gen.choices(states[p])|);
    ProcessedNext(gen, states, ids, acts, base, p);
  }

  /** A state whose list holds its built actions extends the processed
      prefix by one. */
  lemma ProcessedNext<S>(gen: Generator<S>, states: seq<S>, ids: map<S, nat>, acts: seq<seq<Action>>, base: nat, p: nat)
    requires Processed(gen, states, ids, acts, base, p) && p < |states|
    requires AllKnownUpTo(gen.choices(states[p]), ids, |gen.choices(states[p])|)
    requires acts[base + p] == BuiltActions(gen.choices(states[p]), ids, |gen.choices(states[p])|)
    ensures Processed(gen, states, ids, acts, base, p + 1)
  {
  }

  /** The state of the loop over the choices of one state: `j` choices
      built, their actions appended to the state's list `stateId`. */
  ghost predicate Choosing<S>(states0: seq<S>, ids0: map<S, nat>, queue0: seq<S>, acts0: seq<seq<Action>>,
                              base: nat, space: set<S>, stateId: nat, cs: seq<Choice<S>>, j: nat,
                              states: seq<S>, ids: map<S, nat>, queue: seq<S>, acts: seq<seq<Action>>)
  {
    && Indexing(states0, ids0, queue0, base, states, ids, queue) && ids.Keys <= space
    && |acts| == base + |states| && j <= |cs| && AllKnownUpTo(cs, ids, j)
    && Appended(acts0, acts, stateId, BuiltActions(cs, ids, j))
  }

  /** Building choice `j` and appending its action keeps `Choosing`. */
  lemma ChoosingStep<S>(states0: seq<S>, ids0: map<S, nat>, queue0: seq<S>, acts0: seq<seq<Action>>,
                        base: nat, space: set<S>, stateId: nat, cs: seq<Choice<S>>, j: nat,
                        states: seq<S>, ids: map<S, nat>, queue: seq<S>, acts: seq<seq<Action>>,
                        states1: seq<S>, ids1: map<S, nat>, queue1: seq<S>, acts1: seq<seq<Action>>, d: Distribution)
    requires Choosing(states0, ids0, queue0, acts0, base, space, stateId, cs, j, states, ids, queue, acts) && j < |cs|
    requires Indexing(states, ids, queue, base, states1, ids1, queue1) && ids1.Keys <= space
    requires |acts1| == base + |states1| && ModelGrown(acts, acts1)
    requires Known(cs[j].transitions, ids1) && d == Summed(cs[j].transitions, ids1)
    ensures Choosing(states0, ids0, queue0, acts0, base, space, stateId, cs, j + 1,
                     states1, ids1, queue1, acts1[stateId := acts1[stateId] + [Action(d, None)]])
  {
    IndexingTrans(states0, ids0, queue0, states, ids, queue, states1, ids1, queue1, base);
    BuiltActionsExtends(cs, ids, ids1, j);
    AppendedGrown(acts0, acts, acts1, stateId, BuiltActions(cs, ids1, j));
    AppendedAdd(acts0, acts1, stateId, BuiltActions(cs, ids1, j), Action(d, None));
  }

  /** Lines 24-40: a dequeued state receives one unlabelled choice per
      generator choice. */
  method ProcessState<S>(stateIndices: StateToIndex<S>, model: Model, gen: Generator<S>, state: S, stateId: nat,
                         queue: seq<S>, ghost states: seq<S>, ghost p: nat, ghost space: set<S>, ghost base: nat)
    returns (queue': seq<S>, ghost states': seq<S>)
    requires Closed(gen, space) && stateIndices.ids.Keys <= space
    requires IndexedFrom(states, stateIndices.ids, base) && p < |states| && states[p] == state && stateId == base + p
    requires model.Valid() && |model.actions| == base + |states|
    requires Pending(states, model.actions, base, p)
    modifies stateIndices, model
    ensures Indexing(states, old(stateIndices.ids), queue, base, states', stateIndices.ids, queue')
    ensures stateIndices.ids.Keys <= space
    ensures model.Valid() && |model.actions| == base + |states'| && model.initialStates == old(model.initialStates)
    ensures AllKnownUpTo(gen.choices(state), stateIndices.ids, |gen.choices(state)|)
    ensures Appended(old(model.actions), model.actions, stateId,
                     BuiltActions(gen.choices(state), stateIndices.ids, |gen.choices(state)|))
  {
    var choices := gen.choices(state);
    queue', states' := queue, states;
    IndexingRefl(states, stateIndices.ids, queue, base);
    assert model.actions[stateId] == [];
    assert model.actions[stateId] + [] == model.actions[stateId];
    var j := 0;
    while j < |choices|
      invariant Choosing(states, old(stateIndices.ids), queue, old(model.actions), base, space, stateId, choices, j,
                         states', stateIndices.ids, queue', model.actions)
      invariant model.Valid() && model.initialStates == old(model.initialStates)
    {
      ghost var idsBefore, actsBefore, statesBefore, queueBefore := stateIndices.ids, model.actions, states', queue';
      assert forall k :: 0 <= k < |choices[j].transitions| ==> choices[j].transitions[k].0 in space;
      var distribution;
      distribution, queue', states' := BuildDistribution(stateIndices, model, choices[j].transitions, queue', states', base, space);
      ChoosingStep(states, old(stateIndices.ids), queue, old(model.actions), base, space, stateId, choices, j,
                   statesBefore, idsBefore, queueBefore, actsBefore,
                   states', stateIndices.ids, queue', model.actions, distribution);
      model.AddChoice(stateId, Action(distribution, None));
      j := j + 1;
    }
  }

  /** The next initial state is not indexed yet, so it gets the next id. */
  lemma InitialStep<S>(init: seq<S>, i: nat, states: seq<S>, ids: map<S, nat>, ids': map<S, nat>, base: nat)
    requires forall i, j :: 0 <= i < j < |init| ==> init[i] != init[j]
    requires i < |init| && states == init[..i] && IndexedFrom(states, ids, base)
    requires ids' == ids[init[i] := base + i]
    ensures init[i] !in ids
    ensures IndexedFrom(states + [init[i]], ids', base)
    ensures states + [init[i]] == init[..i + 1]
  {
    assert |states| == i;
    forall u | u in ids ensures u != init[i] {
      var k := ids[u] - base;
      assert states[k] == u && states[k] == init[k] && k < i;
    }
    IndexStep(states, ids, base, init[i]);
    assert ids' == ids[init[i] := base + |states|];
  }

  /** The state of the loop over the initial states after the first `i`:
      they are indexed in order from `|acts0|`, each with a new empty list,
      and their ids are added to the initial states. */
  ghost predicate Seeded<S>(init: seq<S>, i: nat, states: seq<S>, ids: map<S, nat>, acts0: seq<seq<Action>>,
                            acts: seq<seq<Action>>, inits0: set<nat>, inits: set<nat>)
  {
    && i <= |init| && states == init[..i] && IndexedFrom(states, ids, |acts0|)
    && |acts| == |acts0| + i && ModelGrown(acts0, acts)
    && inits == inits0 + IdRange(|acts0|, i)
  }

  /** Marking the next id initial extends the range of initial ids. */
  lemma InitialIdsStep(base: nat, i: nat, inits0: set<nat>, inits: set<nat>, inits': set<nat>)
    requires inits == inits0 + IdRange(base, i) && inits' == inits + {base + i}
    ensures inits' == inits0 + IdRange(base, i + 1)
  {
    IdRangeStep(base, i);
  }

  /** Appending one empty list keeps the model grown. */
  lemma GrownByOne(acts0: seq<seq<Action>>, acts: seq<seq<Action>>, acts': seq<seq<Action>>)
    requires ModelGrown(acts0, acts) && acts' == acts + [[]]
    ensures ModelGrown(acts0, acts')
  {
    forall s | 0 <= s < |acts| ensures acts'[s] == acts[s] {
    }
  }

  /** Adding the next initial state keeps `Seeded`. */
  lemma SeededStep<S>(init: seq<S>, i: nat, states: seq<S>, ids: map<S, nat>, acts0: seq<seq<Action>>,
                      acts: seq<seq<Action>>, inits0: set<nat>, inits: set<nat>,
                      ids': map<S, nat>, acts': seq<seq<Action>>, inits': set<nat>)
    requires forall i, j :: 0 <= i < j < |init| ==> init[i] != init[j]
    requires Seeded(init, i, states, ids, acts0, acts, inits0, inits) && i < |init|
    requires acts' == acts + [[]] && ids' == ids[init[i] := |acts|] && inits' == inits + {|acts|}
    ensures Seeded(init, i + 1, states + [init[i]], ids', acts0, acts', inits0, inits')
  {
    var base := |acts0|;
    InitialStep(init, i, states, ids, ids', base);
    InitialIdsStep(base, i, inits0, inits, inits');
    GrownByOne(acts0, acts, acts');
  }

  /** Lines 17-21: each initial state gets a new model state, an id and
      the initial mark, in order. */
  method AddInitialStates<S>(stateIndices: StateToIndex<S>, model: Model, init: seq<S>)
    returns (ghost states: seq<S>)
    requires forall i, j :: 0 <= i < j < |init| ==> init[i] != init[j]
    requires model.Valid() && stateIndices.ids == map[]
    modifies stateIndices, model
    ensures states == init && IndexedFrom(states, stateIndices.ids, old(|model.actions|))
    ensures model.Valid() && |model.actions| == old(|model.actions|) + |init|
    ensures ModelGrown(old(model.actions), model.actions)
    ensures model.initialStates == old(model.initialStates) + IdRange(old(|model.actions|), |init|)
  {
    states := [];
    var i := 0;
    while i < |init|
      invariant model.Valid()
      invariant Seeded(init, i, states, stateIndices.ids, old(model.actions), model.actions,
                       old(model.initialStates), model.initialStates)
      decreases |init| - i
    {
      var initialState := init[i];
      ghost var acts1, ids1, inits1 := model.actions, stateIndices.ids, model.initialStates;
      var id := model.AddState();
      stateIndices.AddState(initialState, id);
      model.AddInitialState(id);
      SeededStep(init, i, states, ids1, old(model.actions), acts1, old(model.initialStates), inits1,
                 stateIndices.ids, model.actions, model.initialStates);
      states := states + [initialState];
      i := i + 1;
    }
  }

  /** The state of the main loop: the queue holds the indexed states not
      yet processed, in id order; the ones before them are processed. */
  ghost predicate Breadth<S>(gen: Generator<S>, space: set<S>, base: nat, states: seq<S>, ids: map<S, nat>,
                             acts: seq<seq<Action>>, queue: seq<S>, p: nat)
  {
    && IndexedFrom(states, ids, base) && ids.Keys <= space && |acts| == base + |states|
    && p <= |states| && queue == states[p..]
    && Processed(gen, states, ids, acts, base, p) && Pending(states, acts, base, p)
  }

  /** One pass of the main loop keeps `Breadth`, keeps the states indexed
      so far, and either indexes a new state of `space` or shortens the
      queue. */
  lemma BreadthStep<S>(gen: Generator<S>, space: set<S>, base: nat, p: nat,
                       states0: seq<S>, ids0: map<S, nat>, acts0: seq<seq<Action>>, queue0: seq<S>,
                       states: seq<S>, ids: map<S, nat>, acts: seq<seq<Action>>, queue: seq<S>)
    requires Breadth(gen, space, base, states0, ids0, acts0, queue0, p) && queue0 != []
    requires Indexing(states0, ids0, queue0[1..], base, states, ids, queue)
    requires ids.Keys <= space && |acts| == base + |states|
    requires AllKnownUpTo(gen.choices(queue0[0]), ids, |gen.choices(queue0[0])|)
    requires Appended(acts0, acts, base + p, BuiltActions(gen.choices(queue0[0]), ids, |gen.choices(queue0[0])|))
    ensures Breadth(gen, space, base, states, ids, acts, queue, p + 1)
    ensures forall n :: 0 <= n < base ==> acts[n] == acts0[n]
    ensures |states0| <= |states| && states[..|states0|] == states0
    ensures ids.Keys == ids0.Keys ==> |queue| < |queue0|
    ensures ids.Keys != ids0.Keys ==> space - ids.Keys < space - ids0.Keys
  {
    assert queue0[0] == states0[p];
    StateProcessed(gen, states0, ids0, acts0, states, ids, acts, base, p);
    GrowthDecreases(space, states0, states, ids0, ids, base);
    assert queue == states[p + 1..] by {
      assert states[p + 1..] == states[p + 1..|states0|] + states[|states0|..];
      assert states[p + 1..|states0|] == states0[p + 1..];
    }
  }

  /** The state of `build`'s loop: `Breadth`, the actions of the states
      held before untouched, and the initial states first in id order. */
  ghost predicate Built<S>(gen: Generator<S>, space: set<S>, base: nat, acts0: seq<seq<Action>>, states: seq<S>,
                           ids: map<S, nat>, acts: seq<seq<Action>>, queue: seq<S>, p: nat)
  {
    && Breadth(gen, space, base, states, ids, acts, queue, p) && |acts0| == base
    && (forall i :: 0 <= i < base ==> acts[i] == acts0[i])
    && |gen.initialStates| <= |states| && states[..|gen.initialStates|] == gen.initialStates
  }

  /** The head of the queue is the `p`-th indexed state, not processed yet. */
  lemma BuiltHead<S>(gen: Generator<S>, space: set<S>, base: nat, acts00: seq<seq<Action>>, states: seq<S>,
                     ids: map<S, nat>, acts: seq<seq<Action>>, queue: seq<S>, p: nat)
    requires Built(gen, space, base, acts00, states, ids, acts, queue, p) && queue != []
    ensures p < |states| && states[p] == queue[0] && queue[0] in ids && ids[queue[0]] == base + p
    ensures IndexedFrom(states, ids, base) && ids.Keys <= space && |acts| == base + |states|
    ensures Pending(states, acts, base, p)
  {
    assert queue[0] == states[p..][0];
  }

  /** The initial states, indexed and with empty lists, start the loop. */
  lemma BuiltInit<S>(gen: Generator<S>, space: set<S>, base: nat, acts0: seq<seq<Action>>, states: seq<S>,
                     ids: map<S, nat>, acts: seq<seq<Action>>)
    requires Closed(gen, space) && |acts0| == base
    requires states == gen.initialStates && IndexedFrom(states, ids, base)
    requires |acts| == base + |states| && ModelGrown(acts0, acts)
    ensures Built(gen, space, base, acts0, states, ids, acts, gen.initialStates, 0)
  {
    assert gen.initialStates[0..] == gen.initialStates;
    assert states[..|states|] == states;
    forall s | s in ids ensures s in space {
      assert states[ids[s] - base] == s;
    }
  }

  /** When the queue is empty, every indexed state is processed. */
  lemma BuiltDone<S>(gen: Generator<S>, space: set<S>, base: nat, acts0: seq<seq<Action>>, states: seq<S>,
                     ids: map<S, nat>, acts: seq<seq<Action>>, p: nat)
    requires Built(gen, space, base, acts0, states, ids, acts, [], p)
    ensures IndexedFrom(states, ids, base) && |acts| == base + |states| && ids.Keys <= space
    ensures forall i :: 0 <= i < base ==> acts[i] == acts0[i]
    ensures |gen.initialStates| <= |states| && states[..|gen.initialStates|] == gen.initialStates
    ensures InitialIds(gen.initialStates, ids) == IdRange(base, |gen.initialStates|)
    ensures forall s :: s in ids ==>
      && AllKnownUpTo(gen.choices(s), ids, |gen.choices(s)|)
      && acts[ids[s]] == BuiltActions(gen.choices(s), ids, |gen.choices(s)|)
  {
    InitialIdsRange(gen.initialStates, states, ids, base);
    AllProcessed(gen, states, ids, acts, base);
  }

  /** One pass of `build`'s loop keeps `Built`. */
  lemma BuiltStep<S>(gen: Generator<S>, space: set<S>, base: nat, acts00: seq<seq<Action>>, p: nat, state: S, stateId: nat,
                     states0: seq<S>, ids0: map<S, nat>, acts0: seq<seq<Action>>, queue0: seq<S>,
                     states: seq<S>, ids: map<S, nat>, acts: seq<seq<Action>>, queue: seq<S>)
    requires Built(gen, space, base, acts00, states0, ids0, acts0, queue0, p) && queue0 != [] && queue0[0] == state
    requires Indexing(states0, ids0, queue0[1..], base, states, ids, queue)
    requires ids.Keys <= space && |acts| == base + |states|
    requires AllKnownUpTo(gen.choices(state), ids, |gen.choices(state)|)
    requires Appended(acts0, acts, stateId, BuiltActions(gen.choices(state), ids, |gen.choices(state)|))
    requires stateId == base + p
    ensures Built(gen, space, base, acts00, states, ids, acts, queue, p + 1)
    ensures ids.Keys == ids0.Keys ==> |queue| < |queue0|
    ensures ids.Keys != ids0.Keys ==> space - ids.Keys < space - ids0.Keys
  {
    BreadthStep(gen, space, base, p, states0, ids0, acts0, queue0, states, ids, acts, queue);
    assert states[..|gen.initialStates|] == gen.initialStates by {
      assert states[..|states0|][..|gen.initialStates|] == states0[..|gen.initialStates|];
    }
  }

  /** `build` (lines 13-43): every initial state, then every state found
      from them, receives the next model id once, in breadth-first order;
      the initial states are marked initial; every indexed state's list
      receives the built actions of its generator choices; the states the
      model held before are untouched. `space` is any finite set closed
      under successors; `states` lists the indexed states in id order. */
  method Build<S(==)>(model: Model, gen: Generator<S>, ghost space: set<S>)
    returns (stateIndices: StateToIndex<S>, ghost states: seq<S>)
    requires model.Valid() && Closed(gen, space)
    requires forall i, j :: 0 <= i < j < |gen.initialStates| ==> gen.initialStates[i] != gen.initialStates[j]
    modifies model
    ensures fresh(stateIndices) && model.Valid()
    ensures IndexedFrom(states, stateIndices.ids, old(|model.actions|))
    ensures |model.actions| == old(|model.actions|) + |states| && stateIndices.ids.Keys <= space
    ensures forall i :: 0 <= i < old(|model.actions|) ==> model.actions[i] == old(model.actions)[i]
    ensures |gen.initialStates| <= |states| && states[..|gen.initialStates|] == gen.initialStates
    ensures model.initialStates == old(model.initialStates) + InitialIds(gen.initialStates, stateIndices.ids)
    ensures forall s :: s in stateIndices.ids ==>
      && AllKnownUpTo(gen.choices(s), stateIndices.ids, |gen.choices(s)|)
      && model.actions[stateIndices.ids[s]] == BuiltActions(gen.choices(s), stateIndices.ids, |gen.choices(s)|)
  {
    var queue := gen.initialStates;
    stateIndices := new StateToIndex();
    ghost var base := |model.actions|;
    states := AddInitialStates(stateIndices, model, gen.initialStates);
    BuiltInit(gen, space, base, old(model.actions), states, stateIndices.ids, model.actions);
    ghost var p := 0;
    while queue != []
      invariant Built(gen, space, base, old(model.actions), states, stateIndices.ids, model.actions, queue, p)
      invariant model.Valid()
      invariant model.initialStates == old(model.initialStates) + IdRange(base, |gen.initialStates|)
      decreases space - stateIndices.ids.Keys, |queue|
    {
      ghost var statesBefore, idsBefore, actsBefore, queueBefore := states, stateIndices.ids, model.actions, queue;
      var state := queue[0];
      queue := queue[1..];
      assert queue == queueBefore[1..];
      BuiltHead(gen, space, base, old(model.actions), states, stateIndices.ids, model.actions, queueBefore, p);
      var stateId := stateIndices.ids[state];
      queue, states := ProcessState(stateIndices, model, gen, state, stateId, queue, states, p, space, base);
      BuiltStep(gen, space, base, old(model.actions), p, state, stateId, statesBefore, idsBefore, actsBefore, queueBefore,
                states, stateIndices.ids, model.actions, queue);
      p := p + 1;
    }
    BuiltDone(gen, space, base, old(model.actions), states, stateIndices.ids, model.actions, p);
  }
}
