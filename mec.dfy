/** The end-component closure: shrink a candidate state set, in place, to the
    largest subset in which every state keeps at least one action whose
    support stays inside the set. */
module Mecs {
  import opened Distributions
  import opened Models
  import opened NatSets

  /** The caller-owned candidate set (a bit set in the Java code), shrunk in
      place by `Create` and returned inside the result. */
  class StateSet {
    var elems: set<nat>

    constructor (s: set<nat>)
      ensures elems == s
    {
      elems := s;
    }
  }

  /** A closure result: the (shared) state set and the retained action
      indices per state. */
  datatype Mec = Mec(states: StateSet, actions: map<nat, set<nat>>)

  /** The actions of `s` whose support lies inside `states`. */
  function Inside(acts: seq<seq<Action>>, s: nat, states: set<nat>): (r: set<nat>)
    requires s < |acts|
    ensures forall a :: a in r <==> 0 <= a < |acts[s]| && acts[s][a].distribution.Keys <= states
  {
    set a: nat | a < |acts[s]| && acts[s][a].distribution.Keys <= states
  }

  /** `X` is closed: each of its states has an action that stays in `X`. */
  ghost predicate Closed(acts: seq<seq<Action>>, X: set<nat>) {
    forall s :: s in X ==>
      s < |acts| && exists a :: 0 <= a < |acts[s]| && acts[s][a].distribution.Keys <= X
  }

  /** The retained action set of `s` as the loop sees it before `s` has an
      entry: all of its actions. */
  function Base(acts: seq<seq<Action>>, actions: map<nat, set<nat>>, s: nat): set<nat>
    requires s < |acts|
  {
    if s in actions then actions[s] else Below(|acts[s]|)
  }

  /** The (state, action) pairs still retained: the termination measure
      besides the state set itself. */
  ghost function Pairs(acts: seq<seq<Action>>, actions: map<nat, set<nat>>, states: set<nat>): set<(nat, nat)>
    requires forall s :: s in states ==> s < |acts|
  {
    set s, a | s in states && a in Base(acts, actions, s) :: (s, a)
  }

  ghost predicate WellIndexed(acts: seq<seq<Action>>, actions: map<nat, set<nat>>) {
    forall s :: s in actions ==> s < |acts| && forall a :: a in actions[s] ==> a < |acts[s]|
  }

  /** What one pass keeps of the retained actions of `s`. */
  function Kept(acts: seq<seq<Action>>, actions: map<nat, set<nat>>, s: nat, states: set<nat>): set<nat>
    requires s < |acts|
  {
    Base(acts, actions, s) * Inside(acts, s, states)
  }

  ghost predicate InRange(acts: seq<seq<Action>>, states: set<nat>) {
    forall s :: s in states ==> s < |acts|
  }

  /** The retained actions of `state` minus those whose support leaves
      `states`. */
  method Prune(acts: seq<seq<Action>>, state: nat, stateActions: set<nat>, states: set<nat>)
    returns (kept: set<nat>)
    requires state < |acts| && stateActions <= Below(|acts[state]|)
    ensures kept == stateActions * Inside(acts, state, states)
  {
    var removeActions := set a | a in stateActions && !(acts[state][a].distribution.Keys <= states);
    kept := stateActions - removeActions;
  }

  /** What a pass has computed once it has visited the states in `done`:
      for each of them the retained actions whose support stays inside
      `states`, the states left with none, and whether anything was dropped.
      Entries of the other states are as they were. */
  ghost predicate Visited(acts: seq<seq<Action>>, states: set<nat>, done: set<nat>,
                          actions: map<nat, set<nat>>, actions': map<nat, set<nat>>,
                          toRemove: set<nat>, changed: bool)
    requires InRange(acts, done)
  {
    VisitedActions(acts, states, done, actions, actions') &&
    VisitedMarks(acts, states, done, actions, actions', toRemove, changed)
  }

  ghost predicate VisitedActions(acts: seq<seq<Action>>, states: set<nat>, done: set<nat>,
                                 actions: map<nat, set<nat>>, actions': map<nat, set<nat>>)
    requires InRange(acts, done)
  {
    && WellIndexed(acts, actions')
    && (forall s :: s in actions' ==> s in actions || s in done)
    && (forall s :: s in actions && s !in done ==> s in actions' && actions'[s] == actions[s])
    && (forall s :: s in done ==> Base(acts, actions', s) == Kept(acts, actions, s, states))
  }

  ghost predicate VisitedMarks(acts: seq<seq<Action>>, states: set<nat>, done: set<nat>,
                               actions: map<nat, set<nat>>, actions': map<nat, set<nat>>,
                               toRemove: set<nat>, changed: bool)
    requires InRange(acts, done)
  {
    && toRemove <= done
    && (forall s :: s in done ==> (s in toRemove <==> Kept(acts, actions, s, states) == {}))
    && (forall s :: s in done && s !in toRemove ==> s in actions')
    && (changed <==>
         toRemove != {} || exists s :: s in done && Kept(acts, actions, s, states) != Base(acts, actions, s))
  }

  /** What one whole pass computes. */
  ghost predicate PassResult(acts: seq<seq<Action>>, states: set<nat>, actions: map<nat, set<nat>>,
                             actions': map<nat, set<nat>>, toRemove: set<nat>, changed: bool)
    requires InRange(acts, states)
  {
    Visited(acts, states, states, actions, actions', toRemove, changed)
  }

  /** The body of a pass, for one state not visited yet. */
  method Visit(acts: seq<seq<Action>>, states: set<nat>, ghost done: set<nat>,
               actions: map<nat, set<nat>>, actions': map<nat, set<nat>>,
               toRemove: set<nat>, changed: bool, state: nat)
    returns (actions'': map<nat, set<nat>>, toRemove': set<nat>, changed': bool)
    requires InRange(acts, states) && done <= states && state in states - done
    requires WellIndexed(acts, actions)
    requires Visited(acts, states, done, actions, actions', toRemove, changed)
    ensures Visited(acts, states, done + {state}, actions, actions'', toRemove', changed')
  {
    if |acts[state]| == 0 {
      actions'', toRemove', changed' := actions', toRemove + {state}, true;
    } else {
      actions'', toRemove', changed' := VisitActions(acts, states, done, actions, actions', toRemove, changed, state);
    }
  }

  /** `Visit` for a state that has choices. */
  method VisitActions(acts: seq<seq<Action>>, states: set<nat>, ghost done: set<nat>,
                      actions: map<nat, set<nat>>, actions': map<nat, set<nat>>,
                      toRemove: set<nat>, changed: bool, state: nat)
    returns (actions'': map<nat, set<nat>>, toRemove': set<nat>, changed': bool)
    requires InRange(acts, states) && done <= states && state in states - done
    requires |acts[state]| > 0
    requires WellIndexed(acts, actions)
    requires Visited(acts, states, done, actions, actions', toRemove, changed)
    ensures Visited(acts, states, done + {state}, actions, actions'', toRemove', changed')
  {
    var stateActions := if state in actions' then actions'[state] else Below(|acts[state]|);
    assert stateActions == Base(acts, actions, state);
    var kept := Prune(acts, state, stateActions, states);
    toRemove', changed' := toRemove, changed || kept != stateActions;
    if kept == {} {
      toRemove' := toRemove' + {state};
      // The Java code removes the state's id from its (already empty)
      // action set, so the empty entry stays in the map.
      kept := kept - {state};
      changed' := true;
    }
    assert kept == Kept(acts, actions, state, states);
    actions'' := actions'[state := kept];
    VisitStep(acts, states, done, actions, actions', toRemove, changed, state, actions'', toRemove', changed');
  }

  lemma VisitStep(acts: seq<seq<Action>>, states: set<nat>, done: set<nat>,
                  actions: map<nat, set<nat>>, actions': map<nat, set<nat>>,
                  toRemove: set<nat>, changed: bool, state: nat,
                  actions'': map<nat, set<nat>>, toRemove': set<nat>, changed': bool)
    requires InRange(acts, states) && done <= states && state in states - done
    requires |acts[state]| > 0
    requires WellIndexed(acts, actions)
    requires Visited(acts, states, done, actions, actions', toRemove, changed)
    requires actions'' == actions'[state := Kept(acts, actions, state, states)]
    requires toRemove' == if Kept(acts, actions, state, states) == {} then toRemove + {state} else toRemove
    requires changed' <==> changed || Kept(acts, actions, state, states) != Base(acts, actions, state) ||
                           Kept(acts, actions, state, states) == {}
    ensures Visited(acts, states, done + {state}, actions, actions'', toRemove', changed')
  {
    VisitKeepsActions(acts, states, done, actions, actions', state);
    VisitKeepsMarks(acts, states, done, actions, actions', toRemove, changed, state, toRemove', changed');
  }

  lemma VisitKeepsActions(acts: seq<seq<Action>>, states: set<nat>, done: set<nat>,
                          actions: map<nat, set<nat>>, actions': map<nat, set<nat>>, state: nat)
    requires InRange(acts, states) && done <= states && state in states - done
    requires |acts[state]| > 0
    requires WellIndexed(acts, actions)
    requires VisitedActions(acts, states, done, actions, actions')
    ensures VisitedActions(acts, states, done + {state}, actions,
                           actions'[state := Kept(acts, actions, state, states)])
  {
  }

  lemma VisitKeepsMarks(acts: seq<seq<Action>>, states: set<nat>, done: set<nat>,
                        actions: map<nat, set<nat>>, actions': map<nat, set<nat>>,
                        toRemove: set<nat>, changed: bool, state: nat,
                        toRemove': set<nat>, changed': bool)
    requires InRange(acts, states) && done <= states && state in states - done
    requires |acts[state]| > 0
    requires WellIndexed(acts, actions)
    requires VisitedMarks(acts, states, done, actions, actions', toRemove, changed)
    requires toRemove' == if Kept(acts, actions, state, states) == {} then toRemove + {state} else toRemove
    requires changed' <==> changed || Kept(acts, actions, state, states) != Base(acts, actions, state) ||
                           Kept(acts, actions, state, states) == {}
    ensures VisitedMarks(acts, states, done + {state}, actions,
                         actions'[state := Kept(acts, actions, state, states)], toRemove', changed')
  {
  }

  /** One pass of the fixpoint loop over the current candidate set: states
      with no choices are marked, every retained action leaving the set is
      dropped, and states left with no action are marked. */
  method Pass(model: Model, states: set<nat>, actions: map<nat, set<nat>>)
    returns (actions': map<nat, set<nat>>, toRemove: set<nat>, changed: bool)
    requires InRange(model.actions, states)
    requires WellIndexed(model.actions, actions)
    ensures PassResult(model.actions, states, actions, actions', toRemove, changed)
  {
    var acts := model.actions;
    actions', toRemove, changed := actions, {}, false;
    var todo := states;
    ghost var done: set<nat> := {};
    while todo != {}
      invariant done == states - todo && todo <= states
      invariant Visited(acts, states, done, actions, actions', toRemove, changed)
      decreases todo
    {
      var state :| state in todo;
      actions', toRemove, changed := Visit(acts, states, done, actions, actions', toRemove, changed, state);
      todo, done := todo - {state}, done + {state};
    }
  }

  /** `Mec.create`: the fixpoint loop, shrinking `states` in place. */
  method Create(model: Model, states: StateSet) returns (mec: Mec)
    requires forall s :: s in states.elems ==> s < |model.actions|
    modifies states
    ensures mec.states == states
    ensures states.elems <= old(states.elems)
    ensures mec.actions.Keys <= old(states.elems)
    // Surviving states keep a non-empty action set; removed states that had
    // an entry keep an empty one.
    ensures forall s :: s in states.elems ==> s in mec.actions
    ensures forall s :: s in mec.actions ==> (s in states.elems <==> mec.actions[s] != {})
    // The retained actions of a surviving state are exactly those whose
    // support stays inside the surviving set.
    ensures forall s :: s in states.elems ==> mec.actions[s] == Inside(model.actions, s, states.elems)
    // Nothing closed was removed: the result is the largest closed subset.
    ensures Closed(model.actions, states.elems)
    ensures forall X :: Closed(model.actions, X) && X <= old(states.elems) ==> X <= states.elems
  {
    ghost var acts := model.actions;
    ghost var initial := states.elems;
    var actions: map<nat, set<nat>> := map[];
    var changed := true;
    while changed
      invariant CreateInvariant(acts, initial, states.elems, actions, changed)
      decreases states.elems, Pairs(acts, actions, states.elems), changed
    {
      ghost var before := states.elems;
      var actions', toRemove, changed' := Pass(model, states.elems, actions);
      PassKeepsInvariant(acts, initial, before, actions, actions', toRemove, changed');
      PassMakesProgress(acts, before, actions, actions', toRemove, changed');
      states.elems := states.elems - toRemove;
      actions, changed := actions', changed';
    }
    mec := Mec(states, actions);
  }

  /** The loop invariant of `Create`, over the candidate set `initial` it
      started from. */
  ghost predicate CreateInvariant(acts: seq<seq<Action>>, initial: set<nat>, states: set<nat>,
                                  actions: map<nat, set<nat>>, changed: bool)
  {
    && InRange(acts, initial)
    && states <= initial
    && WellIndexed(acts, actions)
    && actions.Keys <= initial
    && (forall s :: s in actions && s !in states ==> actions[s] == {})
    && (forall s :: s in actions && s in states ==> Inside(acts, s, states) <= actions[s])
    && (forall X :: Closed(acts, X) && X <= initial ==> X <= states)
    && (!changed ==> forall s :: s in states ==>
          s in actions && actions[s] != {} && actions[s] <= Inside(acts, s, states))
  }

  lemma InsideMonotone(acts: seq<seq<Action>>, s: nat, small: set<nat>, large: set<nat>)
    requires s < |acts| && small <= large
    ensures Inside(acts, s, small) <= Inside(acts, s, large)
  {
  }

  /** A closed subset of the candidates loses no state in a pass. */
  lemma PassKeepsClosed(acts: seq<seq<Action>>, initial: set<nat>, states: set<nat>,
                        actions: map<nat, set<nat>>, actions': map<nat, set<nat>>,
                        toRemove: set<nat>, changed: bool, changed': bool)
    requires CreateInvariant(acts, initial, states, actions, changed)
    requires PassResult(acts, states, actions, actions', toRemove, changed')
    ensures forall X :: Closed(acts, X) && X <= initial ==> X <= states - toRemove
  {
    forall X | Closed(acts, X) && X <= initial
      ensures X <= states - toRemove
    {
      assert X <= states;
      forall s | s in X
        ensures s !in toRemove
      {
        var a :| 0 <= a < |acts[s]| && acts[s][a].distribution.Keys <= X;
        assert a in Inside(acts, s, states);
        assert a in Base(acts, actions, s) by {
          if s in actions {
            assert Inside(acts, s, states) <= actions[s];
          }
        }
        assert a in Kept(acts, actions, s, states);
      }
    }
  }

  lemma PassKeepsInvariant(acts: seq<seq<Action>>, initial: set<nat>, states: set<nat>,
                           actions: map<nat, set<nat>>, actions': map<nat, set<nat>>,
                           toRemove: set<nat>, changed': bool)
    requires exists changed :: CreateInvariant(acts, initial, states, actions, changed)
    requires PassResult(acts, states, actions, actions', toRemove, changed')
    ensures CreateInvariant(acts, initial, states - toRemove, actions', changed')
  {
    var changed :| CreateInvariant(acts, initial, states, actions, changed);
    PassKeepsClosed(acts, initial, states, actions, actions', toRemove, changed, changed');
    var after := states - toRemove;
    forall s | s in actions' && s in after
      ensures Inside(acts, s, after) <= actions'[s]
    {
      InsideMonotone(acts, s, after, states);
    }
  }

  /** The termination measure of `Create` goes down with every pass. */
  lemma PassMakesProgress(acts: seq<seq<Action>>, states: set<nat>, actions: map<nat, set<nat>>,
                          actions': map<nat, set<nat>>, toRemove: set<nat>, changed': bool)
    requires InRange(acts, states) && WellIndexed(acts, actions)
    requires PassResult(acts, states, actions, actions', toRemove, changed')
    ensures states - toRemove < states ||
      (states - toRemove == states &&
        (Pairs(acts, actions', states) < Pairs(acts, actions, states) ||
         (Pairs(acts, actions', states) == Pairs(acts, actions, states) && !changed')))
  {
    PairsShrink(acts, states, actions, actions');
  }

  /** Pairs shrink with the per-state action sets, strictly when one of them
      shrinks strictly. */
  lemma PairsShrink(acts: seq<seq<Action>>, states: set<nat>, actions: map<nat, set<nat>>,
                    actions': map<nat, set<nat>>)
    requires forall s :: s in states ==> s < |acts|
    requires forall s :: s in states ==> Base(acts, actions', s) <= Base(acts, actions, s)
    ensures Pairs(acts, actions', states) <= Pairs(acts, actions, states)
    ensures (exists s :: s in states && Base(acts, actions', s) != Base(acts, actions, s)) ==>
      Pairs(acts, actions', states) < Pairs(acts, actions, states)
    ensures (forall s :: s in states ==> Base(acts, actions', s) == Base(acts, actions, s)) ==>
      Pairs(acts, actions', states) == Pairs(acts, actions, states)
  {
    if s :| s in states && Base(acts, actions', s) != Base(acts, actions, s) {
      var small, big := Base(acts, actions', s), Base(acts, actions, s);
      assert exists a :: a in big && a !in small by {
        if forall a :: a in big ==> a in small {
          assert false;
        }
      }
      var a :| a in big && a !in small;
      assert (s, a) in Pairs(acts, actions, states);
      assert (s, a) !in Pairs(acts, actions', states);
    }
  }

  const Two32: int := 0x1_0000_0000

  /** A Java `int` computation: `x` reduced into the signed 32-bit range. */
  function Wrap32(x: int): (r: int)
    ensures -0x8000_0000 <= r < 0x8000_0000
    ensures (r - x) % Two32 == 0
  {
    (x + 0x8000_0000) % Two32 - 0x8000_0000
  }

  /** Wrapping ignores multiples of 2^32. */
  lemma WrapShift(y: int, j: int)
    ensures Wrap32(y + j * Two32) == Wrap32(y)
  {
    var a := y + 0x8000_0000;
    assert (a + j * Two32) % Two32 == a % Two32 by {
      var q, r := a / Two32, a % Two32;
      assert a + j * Two32 == (q + j) * Two32 + r;
    }
  }

  lemma WrapMul(x: int, c: int)
    ensures Wrap32(Wrap32(x) * c) == Wrap32(x * c)
  {
    var w := Wrap32(x);
    var k := (w - x) / Two32;
    assert w == x + k * Two32;
    var y, j := x * c, k * c;
    assert w * c == y + j * Two32 by {
      assert (x + k * Two32) * c == x * c + (k * Two32) * c;
      assert (k * Two32) * c == (k * c) * Two32;
    }
    WrapShift(y, j);
  }

  /** The sum of the elements: the hash code that Java's set contract
      prescribes (over unbounded integers). */
  function SetSum(s: set<nat>): int
    decreases |s|
  {
    if s == {} then 0
    else
      var k := Least(s);
      assert |s - {k}| < |s| by { assert s - {k} < s; }
      k + SetSum(s - {k})
  }

  /** `Mec.equals`: two closures are equal when their state sets hold the
      same states (the same object in particular). */
  function Equals(m: Mec, other: Mec): (r: bool)
    reads m.states, other.states
    ensures r <==> m.states.elems == other.states.elems
  {
    m.states == other.states || m.states.elems == other.states.elems
  }

  /** `Mec.hashCode`: the state set's hash times 31, in 32-bit arithmetic. */
  function HashCode(m: Mec): (h: int)
    reads m.states
    ensures -0x8000_0000 <= h < 0x8000_0000
    ensures h == Wrap32(SetSum(m.states.elems) * 31)
  {
    WrapMul(SetSum(m.states.elems), 31);
    Wrap32(Wrap32(SetSum(m.states.elems)) * 31)
  }

  /** Equal closures hash alike. */
  lemma HashConsistent(m: Mec, other: Mec)
    requires Equals(m, other)
    ensures HashCode(m) == HashCode(other)
  {
  }
}
