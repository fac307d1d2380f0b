/** The default explorer: every explored state gets, for each choice of the
    generator, the action with the choice's distribution over state ids. */
module DefaultExplorers {
  import opened Distributions
  import opened Models
  import opened Explorers

  /** After `j` choices of exploring `source`: their successors are indexed
      and the state's list is `before`'s with the built actions appended. */
  ghost predicate ExploredSoFar<S>(cs: seq<Choice<S>>, j: nat, states: seq<S>, ids: map<S, nat>,
                                   actions: seq<seq<Action>>, start: seq<S>, known: set<S>,
                                   before: seq<seq<Action>>, source: nat, removeSelfLoops: bool)
  {
    && ExploringAfter(cs, j, states, ids, start, known)
    && Appended(before, actions, source, ExploredActions(cs, ids, j, source, removeSelfLoops))
  }

  class DefaultExplorer<S(==)> {
    const index: StateIndex<S>
    const model: Model
    const generator: Generator<S>
    const removeSelfLoops: bool
    var exploredStates: set<nat>

    ghost predicate Valid()
      reads this, index, model
    {
      && index.Valid() && model.Valid() && |model.actions| == |index.states|
      && (forall s :: s in exploredStates ==> s < |index.states|)
    }

    /** A fresh explorer over an empty model. */
    constructor (model: Model, generator: Generator<S>, removeSelfLoops: bool)
      requires model.Valid() && model.actions == []
      ensures Valid() && fresh(index) && index.states == []
      ensures this.model == model && this.generator == generator && this.removeSelfLoops == removeSelfLoops
      ensures exploredStates == {}
    {
      index := new StateIndex();
      this.model := model;
      this.generator := generator;
      this.removeSelfLoops := removeSelfLoops;
      exploredStates := {};
    }

    /** Explores a known, unexplored state: one action per generator choice,
        in order, with the choice's label and the distribution its builder
        loop yields; successors seen for the first time get new ids. */
    method ExploreState(stateId: nat) returns (state: S)
      requires Valid() && stateId < |index.states| && stateId !in exploredStates
      modifies this, index, model
      ensures Valid()
      ensures exploredStates == old(exploredStates) + {stateId}
      ensures state == old(index.states[stateId])
      ensures Extends(old(index.ids), index.ids)
      ensures AllKnownUpTo(generator.choices(state), index.ids, |generator.choices(state)|)
      ensures index.states == old(index.states) + Unseen(old(index.ids).Keys, AllTargets(generator.choices(state)))
      ensures Appended(old(model.actions), model.actions, stateId,
        ExploredActions(generator.choices(state), index.ids, |generator.choices(state)|, stateId, removeSelfLoops))
      ensures model.initialStates == old(model.initialStates)
    {
      exploredStates := exploredStates + {stateId};
      state := index.states[stateId];
      var choices := generator.choices(state);
      var j := 0;
      while j < |choices|
        invariant 0 <= j <= |choices|
        invariant index.Valid() && model.Valid() && |model.actions| == |index.states|
        invariant model.initialStates == old(model.initialStates)
        invariant exploredStates == old(exploredStates) + {stateId}
        invariant Extends(old(index.ids), index.ids)
        invariant ExploredSoFar(choices, j, index.states, index.ids, model.actions, old(index.states),
                                old(index.ids).Keys, old(model.actions), stateId, removeSelfLoops)
      {
        ExploreNextChoice(stateId, choices, j, old(index.states), old(index.ids).Keys, old(model.actions));
        j := j + 1;
      }
      ExploringDone(choices, index.states, index.ids, old(index.states), old(index.ids).Keys);
      assert forall s :: s in exploredStates ==> s < |index.states|;
    }

    /** One pass of the loop of `ExploreState`: the `j`-th choice becomes an
        action of `stateId`. */
    method ExploreNextChoice(stateId: nat, choices: seq<Choice<S>>, j: nat,
                             ghost start: seq<S>, ghost known: set<S>, ghost before: seq<seq<Action>>)
      requires j < |choices| && stateId < |index.states|
      requires index.Valid() && model.Valid() && |model.actions| == |index.states|
      requires ExploredSoFar(choices, j, index.states, index.ids, model.actions, start, known, before,
                             stateId, removeSelfLoops)
      modifies index, model
      ensures index.Valid() && model.Valid() && |model.actions| == |index.states|
      ensures model.initialStates == old(model.initialStates)
      ensures Extends(old(index.ids), index.ids)
      ensures ExploredSoFar(choices, j + 1, index.states, index.ids, model.actions, start, known, before,
                            stateId, removeSelfLoops)
    {
      ghost var done := ExploredActions(choices, index.ids, j, stateId, removeSelfLoops);
      var distribution := ExploreChoice(index, model, stateId, removeSelfLoops, choices, j, start, known);
      AppendedGrown(before, old(model.actions), model.actions, stateId, done);
      ghost var actions1 := model.actions;
      model.AddChoice(stateId, Action(distribution, choices[j].choiceLabel));
      AppendedAdd(before, actions1, stateId, done, Action(distribution, choices[j].choiceLabel));
    }

    /** The distributions of an explored state, as the model stores them. */
    function GetChoices(stateId: nat): (r: seq<Distribution>)
      reads this, index, model
      requires Valid() && stateId in exploredStates
      ensures |r| == |model.actions[stateId]|
      ensures forall i :: 0 <= i < |r| ==> r[i] == model.actions[stateId][i].distribution
    {
      model.GetChoices(stateId)
    }

    /** The actions of an explored state, as the model stores them. */
    function GetActions(stateId: nat): (r: seq<Action>)
      reads this, index, model
      requires Valid() && stateId in exploredStates
      ensures r == model.actions[stateId]
    {
      model.GetActions(stateId)
    }
  }
}
