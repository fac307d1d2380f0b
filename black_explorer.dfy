/** The black-box explorer. It knows each explored state's real actions but
    gives the model only empty distributions; the model learns a
    distribution for an action from how often each successor was observed.
    An optional filter hides the actions observed at most τ times. */
module BlackExplorers {
  import opened NatSets
  import opened Distributions
  import opened Models
  import opened Explorers
  import opened Learners

  /** The threshold test of `updateCounts`: the total just passed τ. */
  predicate Crosses(total: nat, tau: real) {
    total as real > tau && total as real - 1.0 <= tau
  }

  /** Totals only grow, so the threshold is crossed at most once. */
  lemma CrossesAtMostOnce(a: nat, b: nat, tau: real)
    requires a < b
    ensures !(Crosses(a, tau) && Crosses(b, tau))
  {
  }

  /** An action `i` of `source` with its distribution relearned from its
      counts when `changed` selects it. */
  function Relearn(a: Action, c: Counts, source: nat, i: nat, changed: (nat, nat) -> bool,
                   removeSelfLoops: bool): Action
  {
    if changed(source, i) then Action(FromCounts(c, source, removeSelfLoops), a.actionLabel) else a
  }

  /** The list `updateModel` gives a state: one action per count table. */
  function Relearned(acts: seq<Action>, cs: seq<Counts>, source: nat, changed: (nat, nat) -> bool,
                     removeSelfLoops: bool): (r: seq<Action>)
    requires |cs| <= |acts|
    ensures |r| == |cs|
  {
    seq(|cs|, i requires 0 <= i < |cs| => Relearn(acts[i], cs[i], source, i, changed, removeSelfLoops))
  }

  /** Relearning keeps every label, replaces exactly the selected
      distributions by the learned ones and keeps the other actions. */
  lemma RelearnedSpec(acts: seq<Action>, cs: seq<Counts>, source: nat, changed: (nat, nat) -> bool,
                      removeSelfLoops: bool, i: nat)
    requires |cs| <= |acts| && i < |cs|
    ensures Relearned(acts, cs, source, changed, removeSelfLoops)[i].actionLabel == acts[i].actionLabel
    ensures changed(source, i) ==>
      Relearned(acts, cs, source, changed, removeSelfLoops)[i].distribution == FromCounts(cs[i], source, removeSelfLoops)
    ensures !changed(source, i) ==> Relearned(acts, cs, source, changed, removeSelfLoops)[i] == acts[i]
  {
  }

  /** The model after `updateModel`: every state in `explored` relearned. */
  function RelearnedModel(acts: seq<seq<Action>>, explored: set<nat>, counts: map<nat, seq<Counts>>,
                          changed: (nat, nat) -> bool, removeSelfLoops: bool): (r: seq<seq<Action>>)
    requires forall s :: s in explored ==> s < |acts| && s in counts && |counts[s]| <= |acts[s]|
    ensures |r| == |acts|
  {
    seq(|acts|, s requires 0 <= s < |acts| =>
      if s in explored then Relearned(acts[s], counts[s], s, changed, removeSelfLoops) else acts[s])
  }

  /** Relearning again, from the same counts and for a subset of the pairs,
      changes nothing. */
  lemma RelearnedTwice(acts: seq<Action>, cs: seq<Counts>, source: nat, changed: (nat, nat) -> bool,
                       again: (nat, nat) -> bool, removeSelfLoops: bool)
    requires |cs| <= |acts|
    requires forall i :: 0 <= i < |cs| && again(source, i) ==> changed(source, i)
    ensures Relearned(Relearned(acts, cs, source, changed, removeSelfLoops), cs, source, again, removeSelfLoops) ==
            Relearned(acts, cs, source, changed, removeSelfLoops)
  {
    var once := Relearned(acts, cs, source, changed, removeSelfLoops);
    var twice := Relearned(once, cs, source, again, removeSelfLoops);
    forall i | 0 <= i < |cs| ensures twice[i] == once[i] {
      assert twice[i] == Relearn(once[i], cs[i], source, i, again, removeSelfLoops);
    }
  }

  /** A change flag, false when absent (the default of the flag maps). */
  function FlagOf(flags: map<nat, map<nat, bool>>, s: nat, a: nat): bool {
    s in flags && a in flags[s] && flags[s][a]
  }

  /** A state's flags with action `a` marked as changed. */
  function Mark(m: map<nat, bool>, a: nat): (r: map<nat, bool>)
    ensures r.Keys == m.Keys + {a} && r[a]
  {
    m[a := true]
  }

  /** A state's flags after the reset loop of `updateModelCounts`: the
      indices below `n` set to false, the others as they were. */
  function Reset(m: map<nat, bool>, n: nat): (r: map<nat, bool>)
    ensures r.Keys == m.Keys + Below(n)
  {
    map i | i in m.Keys + Below(n) :: if i < n then false else m[i]
  }

  /** Every state's flags after the reset loop. */
  function ResetAll(flags: map<nat, map<nat, bool>>, n: nat): (r: map<nat, map<nat, bool>>)
    ensures r.Keys == flags.Keys
  {
    map s | s in flags :: Reset(flags[s], n)
  }

  /** The flags while the reset loop runs: the states in `done` reset. */
  function PartlyReset(flags: map<nat, map<nat, bool>>, done: set<nat>, n: nat): map<nat, map<nat, bool>> {
    map s | s in flags :: if s in done then Reset(flags[s], n) else flags[s]
  }

  lemma PartlyResetStep(flags: map<nat, map<nat, bool>>, done: set<nat>, n: nat, key: nat)
    requires key in flags
    ensures PartlyReset(flags, done, n)[key := Reset(PartlyReset(flags, done, n)[key], n)] ==
            PartlyReset(flags, done + {key}, n)
  {
    ResetTwice(flags[key], n);
  }

  lemma PartlyResetAll(flags: map<nat, map<nat, bool>>, n: nat)
    ensures PartlyReset(flags, flags.Keys, n) == ResetAll(flags, n)
  {
  }

  /** Resetting is idempotent. */
  lemma ResetTwice(m: map<nat, bool>, n: nat)
    ensures Reset(Reset(m, n), n) == Reset(m, n)
  {
  }

  /** The reset only clears flags: the flags after it are a subset. */
  lemma ResetWeakens(flags: map<nat, map<nat, bool>>, n: nat, s: nat, a: nat)
    requires s in flags
    ensures FlagOf(flags[s := Reset(flags[s], n)], s, a) ==> FlagOf(flags, s, a)
    ensures FlagOf(flags[s := Reset(flags[s], n)], s, a) <==> a >= n && FlagOf(flags, s, a)
  {
  }

  lemma ResetStep(m: map<nat, bool>, a: nat)
    ensures Reset(m, a)[a := false] == Reset(m, a + 1)
  {
  }

  /** The reset loop: indices 0 .. n-1 set to false, one by one. */
  method ClearFlags(m: map<nat, bool>, n: nat) returns (r: map<nat, bool>)
    ensures r == Reset(m, n)
  {
    r := m;
    var a := 0;
    while a < n
      invariant 0 <= a <= n
      invariant r == Reset(m, a)
    {
      ResetStep(m, a);
      r := r[a := false];
      a := a + 1;
    }
  }

  /** The indices of the actions whose total count exceeds τ. */
  ghost function CountKept(cs: seq<Counts>, n: nat, tau: real): set<nat> {
    set i | 0 <= i < n && i < |cs| && Total(cs[i]) as real > tau
  }

  /** The model while the count filter is active: every state in `explored`
      keeps exactly its actions observed more than τ times. */
  ghost function FilteredModel(acts: seq<seq<Action>>, explored: set<nat>, counts: map<nat, seq<Counts>>,
                               tau: real): (r: seq<seq<Action>>)
    requires forall s :: s in explored ==> s in counts
    ensures |r| == |acts|
  {
    seq(|acts|, s requires 0 <= s < |acts| =>
      if s in explored then Select(acts[s], CountKept(counts[s], |acts[s]|, tau)) else acts[s])
  }

  /** The cache after activation: the unfiltered lists of `explored`. */
  ghost function Snapshot(cache: map<nat, seq<Action>>, acts: seq<seq<Action>>, explored: set<nat>): map<nat, seq<Action>>
    requires forall s :: s in explored ==> s < |acts|
  {
    cache + Lists(acts, explored)
  }

  /** Filtering one more state. */
  lemma FilteredStep(acts: seq<seq<Action>>, done: set<nat>, counts: map<nat, seq<Counts>>, tau: real, i: nat)
    requires forall s :: s in done ==> s in counts
    requires i < |acts| && i in counts && i !in done
    ensures FilteredModel(acts, done, counts, tau)[i := Select(acts[i], CountKept(counts[i], |acts[i]|, tau))] ==
            FilteredModel(acts, done + {i}, counts, tau)
  {
  }

  /** Activating and then deactivating the filter, with nothing in between,
      gives every explored state its list back. */
  lemma FilterRoundTrip(acts: seq<seq<Action>>, explored: set<nat>, counts: map<nat, seq<Counts>>,
                        tau: real, cache: map<nat, seq<Action>>)
    requires forall s :: s in explored ==> s < |acts| && s in counts
    ensures RestoredModel(FilteredModel(acts, explored, counts, tau), explored, Snapshot(cache, acts, explored)) == acts
  {
  }

  /** The bookkeeping of the explorer's tables, over `n` indexed states. */
  ghost predicate Tables(explored: set<nat>, counts: map<nat, seq<Counts>>, hidden: map<nat, seq<Action>>,
                         changed: map<nat, map<nat, bool>>, cache: map<nat, seq<Action>>, n: nat)
  {
    && (forall s :: s in explored ==> s < n && s in counts && s in hidden && s in changed)
    && (forall s :: s in explored ==> |counts[s]| == |hidden[s]|)
    && CountsBelow(counts, n)
    && CacheBelow(cache, n)
  }

  class BlackExplorer<S(==)> {
    const index: StateIndex<S>
    const model: Model
    const generator: Generator<S>
    const removeSelfLoops: bool
    var exploredStates: set<nat>
    /** Per explored state and action: how often each successor was seen. */
    var counts: map<nat, seq<Counts>>
    /** Per explored state: its real actions, hidden from the model. */
    var stateActions: map<nat, seq<Action>>
    /** Per explored state and action: whether its counts changed. */
    var stateActionChange: map<nat, map<nat, bool>>
    var unfilteredActionsCache: map<nat, seq<Action>>
    var exploredActionsCount: nat
    var actionCountFilterActive: bool
    var actionCountFilter: real
    var numTrans: nat

    ghost predicate Valid()
      reads this, index, model
    {
      && index.Valid() && model.Valid() && |model.actions| == |index.states|
      && Tables(exploredStates, counts, stateActions, stateActionChange, unfilteredActionsCache, |index.states|)
    }

    constructor (model: Model, generator: Generator<S>, removeSelfLoops: bool)
      requires model.Valid() && model.actions == []
      ensures Valid() && fresh(index) && index.states == []
      ensures this.model == model && this.generator == generator && this.removeSelfLoops == removeSelfLoops
      ensures exploredStates == {} && counts == map[] && stateActions == map[] && stateActionChange == map[]
      ensures unfilteredActionsCache == map[] && exploredActionsCount == 0 && numTrans == 0
      ensures !actionCountFilterActive && actionCountFilter == 0.0
    {
      index := new StateIndex();
      this.model := model;
      this.generator := generator;
      this.removeSelfLoops := removeSelfLoops;
      exploredStates := {};
      counts := map[];
      stateActions := map[];
      stateActionChange := map[];
      unfilteredActionsCache := map[];
      exploredActionsCount := 0;
      actionCountFilterActive := false;
      actionCountFilter := 0.0;
      numTrans := 0;
    }

    /** Sets τ, which the Java code computes from a confidence and the
        minimal transition probability. */
    method UpdateCountParams(tau: real)
      modifies this
      ensures actionCountFilter == tau
      ensures exploredStates == old(exploredStates) && counts == old(counts) && numTrans == old(numTrans)
      ensures stateActions == old(stateActions) && stateActionChange == old(stateActionChange)
      ensures unfilteredActionsCache == old(unfilteredActionsCache) && exploredActionsCount == old(exploredActionsCount)
      ensures actionCountFilterActive == old(actionCountFilterActive)
    {
      actionCountFilter := tau;
    }

    /** Explores a known, unexplored state: the real actions are kept
        aside, the model gets one empty action per choice with the choice's
        label, and every action starts with an empty count table. */
    method ExploreState(stateId: nat) returns (state: S)
      requires Valid() && stateId < |index.states| && stateId !in exploredStates
      modifies this, index, model
      ensures Valid()
      ensures exploredStates == old(exploredStates) + {stateId}
      ensures state == old(index.states[stateId])
      ensures Explored(generator.choices(state), old(index.ids), index.ids, old(index.states), index.states,
                       old(model.actions), model.actions, stateId, Unlearned(generator.choices(state), |generator.choices(state)|))
      ensures stateActions == old(stateActions)[stateId :=
        ExploredActions(generator.choices(state), index.ids, |generator.choices(state)|, stateId, removeSelfLoops)]
      ensures counts == old(counts)[stateId := EmptyTables(|generator.choices(state)|)]
      ensures stateActionChange == old(stateActionChange)[stateId := map[]]
      ensures exploredActionsCount == old(exploredActionsCount) + |generator.choices(state)|
      ensures numTrans == old(numTrans) && unfilteredActionsCache == old(unfilteredActionsCache)
      ensures actionCountFilterActive == old(actionCountFilterActive) && actionCountFilter == old(actionCountFilter)
      ensures model.initialStates == old(model.initialStates)
    {
      state := index.states[stateId];
      var choices := generator.choices(state);
      var stateChoices, stateActionCounts := ExploreHidden(index, model, stateId, removeSelfLoops, choices);
      ExploredKeepsTables(exploredStates, counts, stateActions, stateActionChange,
                          unfilteredActionsCache, old(|index.states|), |index.states|, stateId,
                          stateActionCounts, stateChoices);
      exploredStates, counts, stateActions, stateActionChange, exploredActionsCount :=
        exploredStates + {stateId}, counts[stateId := stateActionCounts], stateActions[stateId := stateChoices],
        stateActionChange[stateId := map[]], exploredActionsCount + |stateChoices|;
    }

    /** The number of observations of an action: the sum of its successor
        counts. */
    function GetActionCounts(stateId: nat, actionIndex: nat): (n: nat)
      reads this
      requires stateId in counts && actionIndex < |counts[stateId]|
      ensures n as real == Sum(Weights(counts[stateId][actionIndex]))
    {
      TotalWeights(counts[stateId][actionIndex]);
      Total(counts[stateId][actionIndex])
    }

    /** Records one observation of `successor` after `actionIndex` in
        `state`; with `update` the model's action is relearned at once.
        Returns whether the action's total has just passed τ. */
    method UpdateCounts(state: nat, actionIndex: nat, successor: nat, update: bool) returns (newTrans: bool)
      requires Valid() && state in exploredStates && actionIndex < |counts[state]|
      requires successor < |index.states|
      requires update ==> actionIndex < |model.actions[state]|
      modifies this, model
      ensures Valid()
      ensures counts == old(counts)[state := old(counts[state])[actionIndex :=
        Bump(old(counts[state][actionIndex]), successor, 1)]]
      ensures Total(counts[state][actionIndex]) == Total(old(counts[state][actionIndex])) + 1
      ensures numTrans == old(numTrans) + (if CountOf(old(counts[state][actionIndex]), successor) == 0 then 1 else 0)
      ensures newTrans <==> Crosses(Total(counts[state][actionIndex]), actionCountFilter)
      ensures update ==> model.actions == old(model.actions)[state := old(model.actions[state])[actionIndex :=
        Action(FromCounts(counts[state][actionIndex], state, removeSelfLoops), old(model.actions[state][actionIndex].actionLabel))]]
      ensures !update ==> model.actions == old(model.actions)
      ensures stateActionChange == old(stateActionChange)[state := Mark(old(stateActionChange[state]), actionIndex)]
      ensures exploredStates == old(exploredStates) && stateActions == old(stateActions)
      ensures unfilteredActionsCache == old(unfilteredActionsCache) && exploredActionsCount == old(exploredActionsCount)
      ensures actionCountFilterActive == old(actionCountFilterActive) && actionCountFilter == old(actionCountFilter)
      ensures model.initialStates == old(model.initialStates)
    {
      var transitionCounts: Counts := Bump(counts[state][actionIndex], successor, 1);
      TotalBump(counts[state][actionIndex], successor, 1);
      var actionCount := Total(transitionCounts);
      newTrans := Crosses(actionCount, actionCountFilter);
      CountedKeepsTables(exploredStates, counts, stateActions, stateActionChange, unfilteredActionsCache,
                         |index.states|, state, actionIndex, successor);
      if update {
        LearnAction(model, state, actionIndex, transitionCounts, removeSelfLoops);
      }
      counts, stateActionChange, numTrans :=
        counts[state := counts[state][actionIndex := transitionCounts]],
        stateActionChange[state := Mark(stateActionChange[state], actionIndex)],
        if transitionCounts[successor] == 1 then numTrans + 1 else numTrans;
    }

    /** Relearns, for every explored state, the actions `changed` selects. */
    method UpdateModel(changed: (nat, nat) -> bool)
      requires Valid()
      requires forall s :: s in exploredStates ==> |counts[s]| <= |model.actions[s]|
      modifies model
      ensures Valid()
      ensures model.actions == RelearnedModel(old(model.actions), exploredStates, counts, changed, removeSelfLoops)
      ensures model.initialStates == old(model.initialStates)
    {
      RelearnModel(model, exploredStates, counts, changed, removeSelfLoops);
    }

    /** Relearns the actions whose counts changed, then clears the change
        flags of the indices below the number of flagged states. */
    method UpdateModelCounts()
      requires Valid()
      requires forall s :: s in exploredStates ==> |counts[s]| <= |model.actions[s]|
      modifies this, model
      ensures Valid()
      ensures exploredStates == old(exploredStates) && counts == old(counts) && stateActions == old(stateActions)
      ensures numTrans == old(numTrans) && unfilteredActionsCache == old(unfilteredActionsCache)
      ensures exploredActionsCount == old(exploredActionsCount)
      ensures actionCountFilterActive == old(actionCountFilterActive) && actionCountFilter == old(actionCountFilter)
      ensures model.initialStates == old(model.initialStates)
      ensures model.actions == RelearnedModel(old(model.actions), exploredStates, counts,
                                              (s: nat, a: nat) => FlagOf(old(stateActionChange), s, a), removeSelfLoops)
      ensures stateActionChange == ResetAll(old(stateActionChange), old(|stateActionChange|))
    {
      var flags := stateActionChange;
      UpdateModel((s: nat, a: nat) => FlagOf(flags, s, a));
      stateActionChange := ClearAllFlags(flags, |flags|);
    }

    /** The actions of an explored state; while the filter is active only
        those observed more than τ times, in their order. */
    method GetActions(stateId: nat) returns (r: seq<Action>)
      requires Valid() && stateId in exploredStates
      requires actionCountFilterActive ==> |model.actions[stateId]| <= |counts[stateId]|
      ensures r == if actionCountFilterActive
        then Select(model.actions[stateId], CountKept(counts[stateId], |model.actions[stateId]|, actionCountFilter))
        else model.actions[stateId]
    {
      r := model.actions[stateId];
      if actionCountFilterActive {
        r := FilterByCounts(r, counts[stateId], actionCountFilter);
      }
    }

    /** The distributions of an explored state, filtered like its actions. */
    method GetChoices(stateId: nat) returns (r: seq<Distribution>)
      requires Valid() && stateId in exploredStates
      requires actionCountFilterActive ==> |model.actions[stateId]| <= |counts[stateId]|
      ensures r == if actionCountFilterActive
        then Select(DistributionsOf(model.actions[stateId]),
                    CountKept(counts[stateId], |model.actions[stateId]|, actionCountFilter))
        else DistributionsOf(model.actions[stateId])
    {
      r := model.GetChoices(stateId);
      if actionCountFilterActive {
        r := FilterByCounts(r, counts[stateId], actionCountFilter);
      }
    }

    /** Turns the filter on: every explored state's list is cached and the
        model keeps only its actions observed more than τ times. */
    method ActivateActionCountFilter()
      requires Valid()
      requires forall s :: s in exploredStates ==> |model.actions[s]| <= |counts[s]|
      modifies this, model
      ensures Valid() && actionCountFilterActive
      ensures exploredStates == old(exploredStates) && counts == old(counts) && stateActions == old(stateActions)
      ensures stateActionChange == old(stateActionChange) && numTrans == old(numTrans)
      ensures exploredActionsCount == old(exploredActionsCount) && actionCountFilter == old(actionCountFilter)
      ensures model.initialStates == old(model.initialStates)
      ensures unfilteredActionsCache == Snapshot(old(unfilteredActionsCache), old(model.actions), exploredStates)
      ensures model.actions == FilteredModel(old(model.actions), exploredStates, counts, actionCountFilter)
    {
      var cache := FilterModel(model, exploredStates, counts, actionCountFilter);
      SnapshotBelow(unfilteredActionsCache, cache, |index.states|);
      actionCountFilterActive, unfilteredActionsCache := true, unfilteredActionsCache + cache;
    }

    /** Turns the filter off: every explored state gets its cached list back
        and the cache is emptied. */
    method DeactivateActionCountFilter()
      requires Valid()
      requires forall s :: s in exploredStates ==> s in unfilteredActionsCache
      modifies this, model
      ensures Valid() && !actionCountFilterActive && unfilteredActionsCache == map[]
      ensures exploredStates == old(exploredStates) && counts == old(counts) && stateActions == old(stateActions)
      ensures stateActionChange == old(stateActionChange) && numTrans == old(numTrans)
      ensures exploredActionsCount == old(exploredActionsCount) && actionCountFilter == old(actionCountFilter)
      ensures model.initialStates == old(model.initialStates)
      ensures model.actions == RestoredModel(old(model.actions), exploredStates, old(unfilteredActionsCache))
    {
      RestoreModel(model, exploredStates, unfilteredActionsCache);
      actionCountFilterActive, unfilteredActionsCache := false, map[];
    }
  }

  /** The list of state `s` relearned for the pairs `changed` selects. */
  method RelearnList(acts: seq<Action>, cs: seq<Counts>, s: nat, changed: (nat, nat) -> bool, removeSelfLoops: bool)
    returns (list: seq<Action>)
    requires |cs| <= |acts|
    ensures list == Relearned(acts, cs, s, changed, removeSelfLoops)
  {
    list := [];
    var actionIndex := 0;
    while actionIndex < |cs|
      invariant 0 <= actionIndex <= |cs| && |list| == actionIndex
      invariant forall i :: 0 <= i < actionIndex ==> list[i] == Relearn(acts[i], cs[i], s, i, changed, removeSelfLoops)
    {
      var action := acts[actionIndex];
      if changed(s, actionIndex) {
        var distribution := DistributionFromCounts(cs[actionIndex], s, removeSelfLoops);
        action := Action(distribution, action.actionLabel);
      }
      list := list + [action];
      actionIndex := actionIndex + 1;
    }
  }

  /** The loop of `updateModel` over the explored states. */
  method RelearnModel(model: Model, explored: set<nat>, counts: map<nat, seq<Counts>>, changed: (nat, nat) -> bool,
                      removeSelfLoops: bool)
    requires model.Valid()
    requires forall s :: s in explored ==> s < |model.actions| && s in counts && |counts[s]| <= |model.actions[s]|
    requires CountsBelow(counts, |model.actions|)
    modifies model
    ensures model.Valid() && model.initialStates == old(model.initialStates)
    ensures model.actions == RelearnedModel(old(model.actions), explored, counts, changed, removeSelfLoops)
  {
    var todo := explored;
    while todo != {}
      invariant todo <= explored
      invariant model.Valid() && model.initialStates == old(model.initialStates)
      invariant model.actions == RelearnedModel(old(model.actions), explored - todo, counts, changed, removeSelfLoops)
      decreases todo
    {
      var stateId :| stateId in todo;
      var actionList := RelearnList(model.actions[stateId], counts[stateId], stateId, changed, removeSelfLoops);
      RelearnedBelow(model.actions[stateId], counts, stateId, changed, removeSelfLoops, |model.actions|);
      model.SetActions(stateId, actionList);
      todo := todo - {stateId};
    }
  }

  /** Relearned actions lead to indexed states only. */
  lemma RelearnedBelow(acts: seq<Action>, cs: map<nat, seq<Counts>>, s: nat, changed: (nat, nat) -> bool,
                       removeSelfLoops: bool, n: nat)
    requires s in cs && |cs[s]| <= |acts|
    requires forall a :: 0 <= a < |acts| ==> TargetsBelow(acts[a], n)
    requires CountsBelow(cs, n)
    ensures forall a :: 0 <= a < |cs[s]| ==> TargetsBelow(Relearned(acts, cs[s], s, changed, removeSelfLoops)[a], n)
  {
  }

  /** The reset loops of `updateModelCounts` over every flagged state. */
  method ClearAllFlags(flags: map<nat, map<nat, bool>>, n: nat) returns (reset: map<nat, map<nat, bool>>)
    ensures reset == ResetAll(flags, n)
  {
    reset := flags;
    var todo := flags.Keys;
    ghost var done := {};
    while todo != {}
      invariant todo + done == flags.Keys && todo !! done
      invariant reset == PartlyReset(flags, done, n)
      decreases todo
    {
      var key :| key in todo;
      PartlyResetStep(flags, done, n, key);
      var cleared := ClearFlags(reset[key], n);
      reset := reset[key := cleared];
      todo, done := todo - {key}, done + {key};
    }
    PartlyResetAll(flags, n);
  }

  /** The filter loop of `getActions`/`getChoices`: the entries whose
      action was observed more than τ times, in order. */
  method FilterByCounts<T>(xs: seq<T>, cs: seq<Counts>, tau: real) returns (r: seq<T>)
    requires |xs| <= |cs|
    ensures r == Select(xs, CountKept(cs, |xs|, tau))
  {
    ghost var keep := CountKept(cs, |xs|, tau);
    r := [];
    var i := 0;
    while i < |xs|
      invariant 0 <= i <= |xs|
      invariant r == Select(xs[..i], keep)
    {
      SelectSnoc(xs, i, keep);
      TotalWeights(cs[i]);
      if Total(cs[i]) as real > tau {
        r := r + [xs[i]];
      }
      i := i + 1;
    }
    assert xs[..i] == xs;
  }

  /** The loop of `activateActionCountFilter`: returns the unfiltered lists
      of `explored` and leaves each of them filtered in the model. */
  method FilterModel(model: Model, explored: set<nat>, counts: map<nat, seq<Counts>>, tau: real)
    returns (cache: map<nat, seq<Action>>)
    requires model.Valid()
    requires forall s :: s in explored ==> s < |model.actions| && s in counts && |model.actions[s]| <= |counts[s]|
    modifies model
    ensures model.Valid() && model.initialStates == old(model.initialStates)
    ensures cache == Lists(old(model.actions), explored)
    ensures CacheBelow(cache, |model.actions|)
    ensures model.actions == FilteredModel(old(model.actions), explored, counts, tau)
  {
    cache := map[];
    var todo := explored;
    ghost var done := {};
    while todo != {}
      invariant todo + done == explored && todo !! done
      invariant model.Valid() && model.initialStates == old(model.initialStates)
      invariant cache == Lists(old(model.actions), done)
      invariant model.actions == FilteredModel(old(model.actions), done, counts, tau)
      decreases todo
    {
      var i :| i in todo;
      ListsStep(old(model.actions), done, i);
      FilteredStep(old(model.actions), done, counts, tau, i);
      cache := cache[i := model.actions[i]];
      var filtered := FilterByCounts(model.actions[i], counts[i], tau);
      SelectKeepsTargets(model.actions[i], CountKept(counts[i], |model.actions[i]|, tau), |model.actions|);
      model.SetActions(i, filtered);
      todo, done := todo - {i}, done + {i};
    }
    ListsBelow(old(model.actions), explored, |model.actions|);
  }

  /** Counting one more observation keeps the tables consistent. */
  lemma CountedKeepsTables(explored: set<nat>, counts: map<nat, seq<Counts>>, hidden: map<nat, seq<Action>>,
                           changed: map<nat, map<nat, bool>>, cache: map<nat, seq<Action>>, n: nat,
                           s: nat, a: nat, t: nat)
    requires Tables(explored, counts, hidden, changed, cache, n) && s in explored && a < |counts[s]| && t < n
    ensures forall u :: u in Bump(counts[s][a], t, 1) ==> u < n
    ensures Tables(explored, counts[s := counts[s][a := Bump(counts[s][a], t, 1)]], hidden,
                   changed[s := Mark(changed[s], a)], cache, n)
  {
  }

  /** Exploring one more state keeps the tables consistent. */
  lemma ExploredKeepsTables(explored: set<nat>, counts: map<nat, seq<Counts>>, hidden: map<nat, seq<Action>>,
                            changed: map<nat, map<nat, bool>>, cache: map<nat, seq<Action>>, n: nat, n': nat,
                            s: nat, tables: seq<Counts>, actions: seq<Action>)
    requires Tables(explored, counts, hidden, changed, cache, n) && n <= n' && s < n'
    requires |tables| == |actions| && forall i :: 0 <= i < |tables| ==> tables[i] == map[]
    ensures Tables(explored + {s}, counts[s := tables], hidden[s := actions], changed[s := map[]], cache, n')
  {
  }
}
