/** The partial model that the explorers fill and the analyses read: per
    state an ordered list of actions, each a distribution with an optional
    label, plus the set of initial states. The storage backend itself is an
    external collaborator; this class is the least that the core relies on. */
module Models {
  import opened Distributions

  datatype Option<+T> = None | Some(value: T)

  /** Errors that the core reports to its callers instead of a result. */
  datatype Error = UnsupportedOperation | IllegalArgument

  datatype Outcome = Pass | Fail(error: Error)

  type Label = string

  datatype Action = Action(distribution: Distribution, actionLabel: Option<Label>)

  /** Every target of `a` is one of the first `n` states. */
  ghost predicate TargetsBelow(a: Action, n: nat) {
    forall t :: t in a.distribution ==> t < n
  }

  function DistributionsOf(actions: seq<Action>): (r: seq<Distribution>)
    ensures |r| == |actions|
    ensures forall i :: 0 <= i < |r| ==> r[i] == actions[i].distribution
  {
    if actions == [] then []
    else DistributionsOf(actions[..|actions| - 1]) + [actions[|actions| - 1].distribution]
  }

  class Model {
    var actions: seq<seq<Action>>
    var initialStates: set<nat>

    /** Targets and initial states are states of the model. */
    ghost predicate Valid()
      reads this
    {
      && (forall s, a :: 0 <= s < |actions| && 0 <= a < |actions[s]| ==>
            TargetsBelow(actions[s][a], |actions|))
      && (forall s :: s in initialStates ==> s < |actions|)
    }

    constructor ()
      ensures Valid() && actions == [] && initialStates == {}
    {
      actions := [];
      initialStates := {};
    }

    function NumStates(): nat
      reads this
    {
      |actions|
    }

    function GetActions(s: nat): seq<Action>
      reads this
      requires s < |actions|
    {
      actions[s]
    }

    function GetChoices(s: nat): (r: seq<Distribution>)
      reads this
      requires s < |actions|
      ensures |r| == |actions[s]|
    {
      DistributionsOf(actions[s])
    }

    method AddState() returns (id: nat)
      requires Valid()
      modifies this
      ensures Valid()
      ensures id == old(|actions|) && actions == old(actions) + [[]]
      ensures initialStates == old(initialStates)
    {
      id := |actions|;
      actions := actions + [[]];
    }

    method AddChoice(s: nat, a: Action)
      requires Valid() && s < |actions| && TargetsBelow(a, |actions|)
      modifies this
      ensures Valid()
      ensures actions == old(actions)[s := old(actions[s]) + [a]]
      ensures initialStates == old(initialStates)
    {
      actions := actions[s := actions[s] + [a]];
    }

    method SetActions(s: nat, list: seq<Action>)
      requires Valid() && s < |actions|
      requires forall a :: 0 <= a < |list| ==> TargetsBelow(list[a], |actions|)
      modifies this
      ensures Valid()
      ensures actions == old(actions)[s := list]
      ensures initialStates == old(initialStates)
    {
      actions := actions[s := list];
    }

    method AddInitialState(s: nat)
      requires Valid() && s < |actions|
      modifies this
      ensures Valid()
      ensures actions == old(actions) && initialStates == old(initialStates) + {s}
    {
      initialStates := initialStates + {s};
    }

    method SetInitialStates(states: set<nat>)
      requires Valid() && forall s :: s in states ==> s < |actions|
      modifies this
      ensures Valid()
      ensures actions == old(actions) && initialStates == states
    {
      initialStates := states;
    }
  }
}
