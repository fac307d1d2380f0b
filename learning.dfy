/** What the black-box and grey-box explorers share: exploring a state
    keeps its real actions aside and gives the model empty ones, and the
    model's distributions are later learned from successor counts. */
module Learners {
  import opened NatSets
  import opened Distributions
  import opened Models
  import opened Explorers

  /** The model actions that exploring adds for the first `k` choices: the
      choice's label and no successors yet. */
  ghost function Unlearned<S>(cs: seq<Choice<S>>, k: nat): (r: seq<Action>)
    requires k <= |cs|
    ensures |r| == k
  {
    if k == 0 then [] else Unlearned(cs, k - 1) + [Action(map[], cs[k - 1].choiceLabel)]
  }

  lemma {:induction false} UnlearnedSpec<S>(cs: seq<Choice<S>>, k: nat)
    requires k <= |cs|
    ensures forall i :: 0 <= i < k ==>
      Unlearned(cs, k)[i].distribution == map[] && Unlearned(cs, k)[i].actionLabel == cs[i].choiceLabel
  {
    if k > 0 {
      UnlearnedSpec(cs, k - 1);
    }
  }

  /** `n` empty count tables. */
  function EmptyTables(n: nat): (r: seq<Counts>)
    ensures |r| == n && forall i :: 0 <= i < n ==> r[i] == map[]
  {
    if n == 0 then [] else EmptyTables(n - 1) + [map[]]
  }

  /** After `j` choices of exploring `source`: their successors are indexed,
      the model got an unlearned action per choice, `hidden` holds the real
      actions and `tables` an empty count table per choice. */
  ghost predicate ExploredSoFar<S>(cs: seq<Choice<S>>, j: nat, states: seq<S>, ids: map<S, nat>,
                                   actions: seq<seq<Action>>, hidden: seq<Action>, tables: seq<Counts>,
                                   start: seq<S>, known: set<S>, before: seq<seq<Action>>,
                                   source: nat, removeSelfLoops: bool)
  {
    && ExploringAfter(cs, j, states, ids, start, known)
    && Appended(before, actions, source, Unlearned(cs, j))
    && hidden == ExploredActions(cs, ids, j, source, removeSelfLoops)
    && tables == EmptyTables(j)
  }


  /** The model after deactivation: `explored` gets its cached lists back. */
  ghost function RestoredModel(acts: seq<seq<Action>>, explored: set<nat>, cache: map<nat, seq<Action>>): (r: seq<seq<Action>>)
    requires forall s :: s in explored ==> s in cache
    ensures |r| == |acts|
  {
    seq(|acts|, s requires 0 <= s < |acts| => if s in explored then cache[s] else acts[s])
  }

  /** The action lists of the states in `states`. */
  function Lists(acts: seq<seq<Action>>, states: set<nat>): map<nat, seq<Action>>
    requires forall s :: s in states ==> s < |acts|
  {
    map s | s in states :: acts[s]
  }

  lemma ListsStep(acts: seq<seq<Action>>, states: set<nat>, i: nat)
    requires forall s :: s in states ==> s < |acts|
    requires i < |acts|
    ensures Lists(acts, states)[i := acts[i]] == Lists(acts, states + {i})
  {
  }

  lemma ListsBelow(acts: seq<seq<Action>>, states: set<nat>, n: nat)
    requires forall s :: s in states ==> s < |acts|
    requires forall s, a :: 0 <= s < |acts| && 0 <= a < |acts[s]| ==> TargetsBelow(acts[s][a], n)
    ensures CacheBelow(Lists(acts, states), n)
  {
  }


  /** Restoring one more state. */
  lemma RestoredStep(acts: seq<seq<Action>>, done: set<nat>, cache: map<nat, seq<Action>>, i: nat)
    requires forall s :: s in done ==> s in cache
    requires i < |acts| && i in cache && i !in done
    ensures RestoredModel(acts, done, cache)[i := cache[i]] == RestoredModel(acts, done + {i}, cache)
  {
  }


  /** Every action of `acts` leads to one of `n` states. */
  ghost predicate ActionsBelow(acts: seq<Action>, n: nat) {
    forall a :: 0 <= a < |acts| ==> TargetsBelow(acts[a], n)
  }

  /** The cached lists lead to indexed states. */
  lemma SnapshotBelow(cache: map<nat, seq<Action>>, added: map<nat, seq<Action>>, n: nat)
    requires CacheBelow(cache, n) && CacheBelow(added, n)
    ensures CacheBelow(cache + added, n)
  {
  }

  /** The selected actions lead where the original ones do. */
  lemma SelectKeepsTargets(acts: seq<Action>, keep: set<nat>, n: nat)
    requires ActionsBelow(acts, n)
    ensures ActionsBelow(Select(acts, keep), n)
  {
    SelectPicks(acts, keep);
  }

  /** Every cached action leads to one of `n` states. */
  ghost predicate CacheBelow(cache: map<nat, seq<Action>>, n: nat) {
    forall s, a :: s in cache && 0 <= a < |cache[s]| ==> TargetsBelow(cache[s][a], n)
  }


  /** The model update after a count changed: action `a` of `s` gets the
      distribution learned from `c` and keeps its label. */
  method LearnAction(model: Model, s: nat, a: nat, c: Counts, removeSelfLoops: bool)
    requires model.Valid() && s < |model.actions| && a < |model.actions[s]|
    requires forall t :: t in c ==> t < |model.actions|
    modifies model
    ensures model.Valid() && model.initialStates == old(model.initialStates)
    ensures model.actions == old(model.actions)[s := old(model.actions[s])[a :=
      Action(FromCounts(c, s, removeSelfLoops), old(model.actions[s][a].actionLabel))]]
  {
    var currActions := model.actions[s];
    var distribution := DistributionFromCounts(c, s, removeSelfLoops);
    var learned := Action(distribution, currActions[a].actionLabel);
    assert TargetsBelow(learned, |model.actions|);
    model.SetActions(s, currActions[a := learned]);
  }


  /** Every counted successor is one of `n` states. */
  ghost predicate CountsBelow(counts: map<nat, seq<Counts>>, n: nat) {
    forall s, i, t :: s in counts && 0 <= i < |counts[s]| && t in counts[s][i] ==> t < n
  }


  /** The restoring loop of the explorers' filter deactivation: every state
      in `explored` gets its cached list back. */
  method RestoreModel(model: Model, explored: set<nat>, cache: map<nat, seq<Action>>)
    requires model.Valid() && CacheBelow(cache, |model.actions|)
    requires forall s :: s in explored ==> s < |model.actions| && s in cache
    modifies model
    ensures model.Valid() && model.initialStates == old(model.initialStates)
    ensures model.actions == RestoredModel(old(model.actions), explored, cache)
  {
    var todo := explored;
    ghost var done := {};
    while todo != {}
      invariant todo + done == explored && todo !! done
      invariant model.Valid() && model.initialStates == old(model.initialStates)
      invariant model.actions == RestoredModel(old(model.actions), done, cache)
      decreases todo
    {
      var i :| i in todo;
      RestoredStep(old(model.actions), done, cache, i);
      model.SetActions(i, cache[i]);
      todo, done := todo - {i}, done + {i};
    }
  }

  /** The loop of a counting explorer's `exploreState` over the choices of
      `stateId`: the real actions are returned in `hidden`, the model gets
      one empty action per choice, and every action gets an empty count
      table. */
  method ExploreHidden<S(==)>(index: StateIndex<S>, model: Model, stateId: nat, removeSelfLoops: bool,
                          choices: seq<Choice<S>>) returns (hidden: seq<Action>, tables: seq<Counts>)
    requires stateId < |index.states|
    requires index.Valid() && model.Valid() && |model.actions| == |index.states|
    modifies index, model
    ensures index.Valid() && model.Valid() && |model.actions| == |index.states|
    ensures model.initialStates == old(model.initialStates)
    ensures Explored(choices, old(index.ids), index.ids, old(index.states), index.states,
                     old(model.actions), model.actions, stateId, Unlearned(choices, |choices|))
    ensures hidden == ExploredActions(choices, index.ids, |choices|, stateId, removeSelfLoops)
    ensures tables == EmptyTables(|choices|)
    ensures ActionsBelow(hidden, |model.actions|)
  {
    hidden, tables := [], [];
    var j := 0;
    while j < |choices|
      invariant 0 <= j <= |choices|
      invariant index.Valid() && model.Valid() && |model.actions| == |index.states|
      invariant model.initialStates == old(model.initialStates)
      invariant Extends(old(index.ids), index.ids)
      invariant ExploredSoFar(choices, j, index.states, index.ids, model.actions, hidden, tables,
                              old(index.states), old(index.ids).Keys, old(model.actions), stateId, removeSelfLoops)
      invariant ActionsBelow(hidden, |model.actions|)
    {
      hidden, tables := ExploreHiddenStep(index, model, stateId, removeSelfLoops, choices, j, hidden, tables,
        old(index.states), old(index.ids).Keys, old(model.actions));
      j := j + 1;
    }
    ExploringDone(choices, index.states, index.ids, old(index.states), old(index.ids).Keys);
  }

  /** One pass of the loop of `ExploreHidden` for the `j`-th choice. */
  method ExploreHiddenStep<S(==)>(index: StateIndex<S>, model: Model, stateId: nat, removeSelfLoops: bool,
                              choices: seq<Choice<S>>, j: nat, hidden: seq<Action>, tables: seq<Counts>,
                              ghost start: seq<S>, ghost known: set<S>, ghost before: seq<seq<Action>>)
    returns (hidden': seq<Action>, tables': seq<Counts>)
    requires j < |choices| && stateId < |index.states|
    requires index.Valid() && model.Valid() && |model.actions| == |index.states|
    requires ExploredSoFar(choices, j, index.states, index.ids, model.actions, hidden, tables, start, known, before,
                           stateId, removeSelfLoops)
    requires ActionsBelow(hidden, |model.actions|)
    modifies index, model
    ensures index.Valid() && model.Valid() && |model.actions| == |index.states|
    ensures model.initialStates == old(model.initialStates)
    ensures Extends(old(index.ids), index.ids)
    ensures ExploredSoFar(choices, j + 1, index.states, index.ids, model.actions, hidden', tables', start, known,
                          before, stateId, removeSelfLoops)
    ensures ActionsBelow(hidden', |model.actions|)
  {
    var distribution := ExploreChoice(index, model, stateId, removeSelfLoops, choices, j, start, known);
    hidden' := hidden + [Action(distribution, choices[j].choiceLabel)];
    tables' := tables + [map[]];
    AppendedGrown(before, old(model.actions), model.actions, stateId, Unlearned(choices, j));
    ghost var actions1 := model.actions;
    model.AddChoice(stateId, Action(map[], choices[j].choiceLabel));
    AppendedAdd(before, actions1, stateId, Unlearned(choices, j), Action(map[], choices[j].choiceLabel));
  }
}
