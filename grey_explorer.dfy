/** The grey-box explorer. It knows each explored state's actual actions,
    gives the model only what it learned from observed successors, and
    calls an action fully explored once the learned action has as many
    successors as the actual one. An optional filter shows the model only the
    fully explored actions and translates their positions back to the real
    indices. */
module GreyExplorers {
  import opened NatSets
  import opened Distributions
  import opened Models
  import opened Explorers
  import opened Learners

  /** A lookup in an index map; a missing key gives 0, the default value of
      the Java map type (`Int2IntMap`). */
  function IndexOf(m: map<nat, nat>, k: nat): nat {
    if k in m then m[k] else 0
  }

  /** The test of `isStateActionExplored`: the learned action has as many
      successors as the actual one. */
  predicate FullyExplored(actual: Action, learned: Action) {
    |actual.distribution| == |learned.distribution|
  }

  /** When the learned successors are actual successors, which is how they are
      observed, the size test holds exactly when every actual successor has
      been observed. */
  lemma FullyExploredMeansAllSeen(actual: Action, learned: Action)
    ensures learned.distribution.Keys <= actual.distribution.Keys ==>
      (FullyExplored(actual, learned) <==> learned.distribution.Keys == actual.distribution.Keys)
  {
    var r, l := actual.distribution.Keys, learned.distribution.Keys;
    if l <= r {
      assert |r| == |actual.distribution| && |l| == |learned.distribution|;
      CardDifference(r, l);
      if |r| == |l| {
        assert r - l == {};
      }
    }
  }

  /** The indices `filterActions` keeps: the non-empty, fully explored
      actions. */
  ghost function ExploredKept(acts: seq<Action>, hidden: seq<Action>): set<nat> {
    set i | 0 <= i < |acts| && i < |hidden| && acts[i].distribution != map[] && FullyExplored(hidden[i], acts[i])
  }

  /** The index map of a filtered list: position `k` to the `k`-th index. */
  function PositionMap(idx: seq<nat>): (m: map<nat, nat>)
    ensures m.Keys == Below(|idx|)
  {
    map k | 0 <= k < |idx| :: idx[k]
  }

  lemma PositionMapSnoc(idx: seq<nat>, i: nat)
    ensures PositionMap(idx + [i]) == PositionMap(idx)[|idx| := i]
  {
  }

  /** The filtered list and its index map agree: filtered position `k`
      holds the kept action at actual index `IndexOf(m, k)`, the actual indices
      ascend, and exactly the kept indices occur. */
  lemma TranslationFindsAction(acts: seq<Action>, hidden: seq<Action>)
    ensures var keep := ExploredKept(acts, hidden);
      var filtered, m := Select(acts, keep), PositionMap(SelectedIndices(|acts|, keep));
      && m.Keys == Below(|filtered|)
      && (forall k :: 0 <= k < |filtered| ==> IndexOf(m, k) < |acts| && filtered[k] == acts[IndexOf(m, k)])
      && (forall k :: 0 <= k < |filtered| ==> IndexOf(m, k) in keep)
      && (forall j, k :: 0 <= j < k < |filtered| ==> IndexOf(m, j) < IndexOf(m, k))
      && (forall i :: 0 <= i < |acts| ==> (i in keep <==> exists k :: 0 <= k < |filtered| && IndexOf(m, k) == i))
  {
    var keep := ExploredKept(acts, hidden);
    SelectPicks(acts, keep);
    PositionMapPicks(Select(acts, keep), acts, SelectedIndices(|acts|, keep), keep);
  }

  /** The index map of any picked list translates its positions. */
  lemma PositionMapPicks(filtered: seq<Action>, acts: seq<Action>, idx: seq<nat>, keep: set<nat>)
    requires Picks(filtered, acts, idx, keep)
    ensures var m := PositionMap(idx);
      && m.Keys == Below(|filtered|)
      && (forall k :: 0 <= k < |filtered| ==> IndexOf(m, k) < |acts| && filtered[k] == acts[IndexOf(m, k)])
      && (forall k :: 0 <= k < |filtered| ==> IndexOf(m, k) in keep)
      && (forall j, k :: 0 <= j < k < |filtered| ==> IndexOf(m, j) < IndexOf(m, k))
      && (forall i :: 0 <= i < |acts| ==> (i in keep <==> exists k :: 0 <= k < |filtered| && IndexOf(m, k) == i))
  {
    var m := PositionMap(idx);
    forall k | 0 <= k < |idx| ensures IndexOf(m, k) == idx[k] && idx[k] in keep {
      assert k in m;
      assert idx[k] < |acts| && idx[k] in idx;
    }
    forall i | 0 <= i < |acts| && i in keep ensures exists k :: 0 <= k < |filtered| && IndexOf(m, k) == i {
      assert i in idx;
      var k :| 0 <= k < |idx| && idx[k] == i;
      assert IndexOf(m, k) == i;
    }
  }

  /** The model while the filter is active: every state in `explored`
      keeps exactly its non-empty, fully explored actions, in order. */
  ghost function GreyFilteredModel(acts: seq<seq<Action>>, explored: set<nat>, hidden: map<nat, seq<Action>>)
    : (r: seq<seq<Action>>)
    requires forall s :: s in explored ==> s in hidden
    ensures |r| == |acts|
  {
    seq(|acts|, s requires 0 <= s < |acts| =>
      if s in explored then Select(acts[s], ExploredKept(acts[s], hidden[s])) else acts[s])
  }

  /** The index maps built by activation, one per state in `explored`. */
  ghost function IndexMaps(acts: seq<seq<Action>>, explored: set<nat>, hidden: map<nat, seq<Action>>)
    : map<nat, map<nat, nat>>
    requires forall s :: s in explored ==> s < |acts| && s in hidden
  {
    map s | s in explored :: PositionMap(SelectedIndices(|acts[s]|, ExploredKept(acts[s], hidden[s])))
  }

  lemma GreyFilteredStep(acts: seq<seq<Action>>, done: set<nat>, hidden: map<nat, seq<Action>>, i: nat)
    requires forall s :: s in done ==> s < |acts| && s in hidden
    requires i < |acts| && i in hidden && i !in done
    ensures GreyFilteredModel(acts, done, hidden)[i := Select(acts[i], ExploredKept(acts[i], hidden[i]))] ==
            GreyFilteredModel(acts, done + {i}, hidden)
    ensures IndexMaps(acts, done, hidden)[i := PositionMap(SelectedIndices(|acts[i]|, ExploredKept(acts[i], hidden[i])))] ==
            IndexMaps(acts, done + {i}, hidden)
  {
  }

  /** Activating and then deactivating the filter, with nothing in between,
      gives every explored state its list back. */
  lemma GreyFilterRoundTrip(acts: seq<seq<Action>>, explored: set<nat>, hidden: map<nat, seq<Action>>,
                            cache: map<nat, seq<Action>>)
    requires forall s :: s in explored ==> s < |acts| && s in hidden
    ensures RestoredModel(GreyFilteredModel(acts, explored, hidden), explored, cache + Lists(acts, explored)) == acts
  {
  }

  /** The smallest number of samples that lifts a count of `start` to at
      least `required`. */
  function SamplesNeeded(start: nat, required: real): (k: nat)
  {
    if required <= start as real then 0
    else
      var gap := required - start as real;
      if gap == gap.Floor as real then gap.Floor as nat else gap.Floor as nat + 1
  }

  /** `SamplesNeeded` is the least number of samples that reaches the
      requirement. */
  lemma SamplesNeededSpec(start: nat, required: real)
    ensures (start + SamplesNeeded(start, required)) as real >= required
    ensures SamplesNeeded(start, required) == 0 <==> required <= start as real
    ensures SamplesNeeded(start, required) > 0 ==> (start + SamplesNeeded(start, required) - 1) as real < required
  {
  }

  /** One more sample needs one sample less. */
  lemma SamplesNeededStep(start: nat, required: real)
    requires start as real < required
    ensures SamplesNeeded(start, required) == SamplesNeeded(start + 1, required) + 1
  {
    var gap := required - start as real;
    assert required - (start + 1) as real == gap - 1.0;
    assert (gap - 1.0).Floor == gap.Floor - 1;
  }

  lemma {:induction false} TotalZero(c: Counts)
    requires forall t :: t in c ==> c[t] == 0
    ensures Total(c) == 0
    decreases |c|
  {
    if c != map[] {
      var k := Least(c.Keys);
      assert |c - {k}| < |c| by { assert (c - {k}).Keys < c.Keys; }
      TotalZero(c - {k});
    }
  }

  /** The sampling loop of `simulateActionRepeatedly`: starting from
      `start` observations, successors of `support` are drawn (a
      nondeterministic choice here) until `required` is reached; returns how
      often each was drawn and the new total. */
  method SampleUntil(support: Distribution, start: nat, required: real) returns (drawn: Counts, total: nat)
    requires support == map[] ==> required <= start as real
    ensures drawn.Keys == support.Keys
    ensures Total(drawn) == SamplesNeeded(start, required)
    ensures total == start + SamplesNeeded(start, required)
  {
    drawn := map t | t in support :: 0;
    TotalZero(drawn);
    total := start;
    while total as real < required
      invariant drawn.Keys == support.Keys
      invariant start <= total && Total(drawn) == total - start
      invariant total + SamplesNeeded(total, required) == start + SamplesNeeded(start, required)
      decreases SamplesNeeded(total, required)
    {
      SamplesNeededStep(total, required);
      var succ :| succ in support;
      TotalBump(drawn, succ, 1);
      drawn := Bump(drawn, succ, 1);
      total := total + 1;
    }
    SamplesNeededSpec(total, required);
  }

  /** After the samples `SamplesNeeded` asks for, the count reaches the
      requirement, and nothing was drawn when it already did. */
  lemma SampledEnough(c: Counts, c': Counts, support: set<nat>, required: real)
    requires GrownOn(c, c', support, SamplesNeeded(Total(c), required))
    ensures Total(c') as real >= required
    ensures required <= Total(c) as real ==> Total(c') == Total(c)
  {
    SamplesNeededSpec(Total(c), required);
  }

  /** `drawn` added into the counts `c`. */
  function AddAll(c: Counts, drawn: Counts): (r: Counts)
    ensures r.Keys == c.Keys + drawn.Keys
    ensures forall t :: t in r ==> r[t] == CountOf(c, t) + CountOf(drawn, t)
  {
    map t | t in c.Keys + drawn.Keys :: CountOf(c, t) + CountOf(drawn, t)
  }

  /** The counts in `drawn` of the keys in `done`. */
  function Restrict(drawn: Counts, done: set<nat>): Counts {
    map t | t in drawn && t in done :: drawn[t]
  }

  /** Adding the count of one more drawn successor `k` to the merged
      table `r`. */
  lemma AddAllStep(c: Counts, drawn: Counts, done: set<nat>, k: nat, r: Counts, current: nat)
    requires k in drawn && k !in done && r == AddAll(c, Restrict(drawn, done)) && current == CountOf(r, k)
    ensures r[k := current + drawn[k]] == AddAll(c, Restrict(drawn, done + {k}))
  {
    var l, m := r[k := current + drawn[k]], AddAll(c, Restrict(drawn, done + {k}));
    assert l.Keys == m.Keys;
    forall t | t in l ensures l[t] == m[t] {
      if t != k {
        assert CountOf(Restrict(drawn, done), t) == CountOf(Restrict(drawn, done + {k}), t);
      }
    }
  }

  lemma AddAllRemove(c: Counts, drawn: Counts, k: nat)
    requires k in drawn
    ensures AddAll(c, drawn) == Bump(AddAll(c, drawn - {k}), k, drawn[k])
  {
    var l, r := AddAll(c, drawn), Bump(AddAll(c, drawn - {k}), k, drawn[k]);
    assert l.Keys == r.Keys;
    forall t | t in l ensures l[t] == r[t] {
      if t != k {
        assert CountOf(drawn, t) == CountOf(drawn - {k}, t);
      }
    }
  }

  lemma AddAllEmpty(c: Counts)
    ensures AddAll(c, map[]) == c
  {
    var l := AddAll(c, map[]);
    assert l.Keys == c.Keys;
    forall t | t in l ensures l[t] == c[t] {
    }
  }

  /** Merging adds the totals. */
  lemma {:induction false} TotalAddAll(c: Counts, drawn: Counts)
    ensures Total(AddAll(c, drawn)) == Total(c) + Total(drawn)
    decreases |drawn|
  {
    if drawn == map[] {
      AddAllEmpty(c);
    } else {
      var k := Least(drawn.Keys);
      var rest := drawn - {k};
      assert |rest| < |drawn| by { assert rest.Keys < drawn.Keys; }
      TotalAddAll(c, rest);
      TotalRemove(drawn, k);
      AddAllRemove(c, drawn, k);
      TotalBump(AddAll(c, rest), k, drawn[k]);
    }
  }

  /** The merge loop of `simulateActionRepeatedly`: every drawn successor's
      count is added to the table. */
  method AddDrawn(c: Counts, drawn: Counts) returns (r: Counts)
    ensures r == AddAll(c, drawn)
  {
    r := c;
    var todo := drawn.Keys;
    ghost var done := {};
    assert c == AddAll(c, Restrict(drawn, done));
    while todo != {}
      invariant todo + done == drawn.Keys && todo !! done
      invariant r == AddAll(c, Restrict(drawn, done))
      decreases todo
    {
      var succ :| succ in todo;
      var currValue := CountOf(r, succ);
      AddAllStep(c, drawn, done, succ, r, currValue);
      r := r[succ := currValue + drawn[succ]];
      todo, done := todo - {succ}, done + {succ};
    }
    assert Restrict(drawn, done) == drawn;
  }

  /** `c'` is `c` after `k` samples from `support`: the samples went to
      successors in the support only, and the total grew by `k`. */
  ghost predicate GrownOn(c: Counts, c': Counts, support: set<nat>, k: nat) {
    && c'.Keys == c.Keys + support
    && (forall t :: t in c && t !in support ==> c'[t] == c[t])
    && (forall t :: t in c' ==> c'[t] >= CountOf(c, t))
    && Total(c') == Total(c) + k
  }

  /** The counting part of `simulateActionRepeatedly`: successors of
      `support` are sampled from a count of `start` until `required` is
      reached, and the samples are added to the counts `c`. */
  method SampleInto(c: Counts, support: Distribution, start: nat, required: real) returns (updated: Counts)
    requires support == map[] ==> required <= start as real
    ensures GrownOn(c, updated, support.Keys, SamplesNeeded(start, required))
  {
    var drawn, _ := SampleUntil(support, start, required);
    updated := AddDrawn(c, drawn);
    TotalAddAll(c, drawn);
  }

  /** The model update of `simulateActionRepeatedly`: the action at
      `position` of `s` becomes the one learned from `c`, with `actionLabel`. */
  method SetLearned(model: Model, s: nat, position: nat, c: Counts, actionLabel: Option<Label>, removeSelfLoops: bool)
    requires model.Valid() && s < |model.actions| && position < |model.actions[s]|
    requires forall t :: t in c ==> t < |model.actions|
    modifies model
    ensures model.Valid() && model.initialStates == old(model.initialStates)
    ensures model.actions == old(model.actions)[s := old(model.actions[s])[position :=
      Action(FromCounts(c, s, removeSelfLoops), actionLabel)]]
  {
    var distribution := DistributionFromCounts(c, s, removeSelfLoops);
    var currActions := model.actions[s];
    var learned := Action(distribution, actionLabel);
    assert TargetsBelow(learned, |model.actions|);
    model.SetActions(s, currActions[position := learned]);
  }

  /** The loop of `filterActions`: the non-empty, fully explored actions in
      order, and the map from their positions to their actual indices. */
  method FilterExplored(acts: seq<Action>, hidden: seq<Action>) returns (filtered: seq<Action>, positions: map<nat, nat>)
    requires |acts| <= |hidden|
    ensures filtered == Select(acts, ExploredKept(acts, hidden))
    ensures positions == PositionMap(SelectedIndices(|acts|, ExploredKept(acts, hidden)))
  {
    ghost var keep := ExploredKept(acts, hidden);
    filtered, positions := [], map[];
    var i := 0;
    while i < |acts|
      invariant 0 <= i <= |acts|
      invariant filtered == Select(acts[..i], keep)
      invariant positions == PositionMap(SelectedIndices(i, keep))
    {
      SelectSnoc(acts, i, keep);
      SelectLength(acts[..i], keep);
      PositionMapSnoc(SelectedIndices(i, keep), i);
      if acts[i].distribution != map[] && FullyExplored(hidden[i], acts[i]) {
        positions := positions[|filtered| := i];
        filtered := filtered + [acts[i]];
      }
      i := i + 1;
    }
    assert acts[..i] == acts;
  }

  /** The loop of `activateFullyExploredActionsModel`: returns the
      unfiltered lists of `explored` and their index maps, and leaves each
      list filtered in the model. */
  method FilterExploredModel(model: Model, explored: set<nat>, hidden: map<nat, seq<Action>>)
    returns (cache: map<nat, seq<Action>>, maps: map<nat, map<nat, nat>>)
    requires model.Valid()
    requires forall s :: s in explored ==> s < |model.actions| && s in hidden && |model.actions[s]| <= |hidden[s]|
    modifies model
    ensures model.Valid() && model.initialStates == old(model.initialStates)
    ensures cache == Lists(old(model.actions), explored)
    ensures CacheBelow(cache, |model.actions|)
    ensures maps == IndexMaps(old(model.actions), explored, hidden)
    ensures model.actions == GreyFilteredModel(old(model.actions), explored, hidden)
  {
    cache, maps := map[], map[];
    var todo := explored;
    ghost var done := {};
    while todo != {}
      invariant todo + done == explored && todo !! done
      invariant model.Valid() && model.initialStates == old(model.initialStates)
      invariant cache == Lists(old(model.actions), done)
      invariant maps == IndexMaps(old(model.actions), done, hidden)
      invariant model.actions == GreyFilteredModel(old(model.actions), done, hidden)
      decreases todo
    {
      var i :| i in todo;
      ListsStep(old(model.actions), done, i);
      GreyFilteredStep(old(model.actions), done, hidden, i);
      cache := cache[i := model.actions[i]];
      var filtered, positions := FilterExplored(model.actions[i], hidden[i]);
      SelectKeepsTargets(model.actions[i], ExploredKept(model.actions[i], hidden[i]), |model.actions|);
      model.SetActions(i, filtered);
      maps := maps[i := positions];
      todo, done := todo - {i}, done + {i};
    }
    ListsBelow(old(model.actions), explored, |model.actions|);
  }

  /** The bookkeeping of the explorer's tables, over `n` indexed states. */
  ghost predicate GreyTables(explored: set<nat>, counts: map<nat, seq<Counts>>, hidden: map<nat, seq<Action>>,
                             cache: map<nat, seq<Action>>, n: nat)
  {
    && (forall s :: s in explored ==> s < n && s in counts && s in hidden)
    && (forall s :: s in explored ==> |counts[s]| == |hidden[s]|)
    && CountsBelow(counts, n)
    && CacheBelow(hidden, n)
    && CacheBelow(cache, n)
  }

  /** Changing one count table, within the states, keeps the tables
      consistent. */
  lemma CountedKeepsGreyTables(explored: set<nat>, counts: map<nat, seq<Counts>>, hidden: map<nat, seq<Action>>,
                               cache: map<nat, seq<Action>>, n: nat, s: nat, a: nat, c: Counts)
    requires GreyTables(explored, counts, hidden, cache, n) && s in explored && a < |counts[s]|
    requires forall t :: t in c ==> t < n
    ensures GreyTables(explored, counts[s := counts[s][a := c]], hidden, cache, n)
  {
  }

  /** Samples drawn from an action's own successors stay within the states,
      so storing them keeps the tables consistent. */
  lemma SampledKeepsGreyTables(explored: set<nat>, counts: map<nat, seq<Counts>>, hidden: map<nat, seq<Action>>,
                               cache: map<nat, seq<Action>>, n: nat, s: nat, a: nat, c: Counts, k: nat)
    requires GreyTables(explored, counts, hidden, cache, n) && s in explored && a < |counts[s]|
    requires GrownOn(counts[s][a], c, hidden[s][a].distribution.Keys, k)
    ensures forall t :: t in c ==> t < n
    ensures GreyTables(explored, counts[s := counts[s][a := c]], hidden, cache, n)
  {
    forall t | t in c ensures t < n {
      if t !in counts[s][a] {
        assert TargetsBelow(hidden[s][a], n);
      }
    }
    CountedKeepsGreyTables(explored, counts, hidden, cache, n, s, a, c);
  }

  /** Exploring one more state keeps the tables consistent. */
  lemma ExploredKeepsGreyTables(explored: set<nat>, counts: map<nat, seq<Counts>>, hidden: map<nat, seq<Action>>,
                                cache: map<nat, seq<Action>>, n: nat, n': nat,
                                s: nat, tables: seq<Counts>, actions: seq<Action>)
    requires GreyTables(explored, counts, hidden, cache, n) && n <= n' && s < n'
    requires |tables| == |actions| && (forall i :: 0 <= i < |tables| ==> tables[i] == map[])
    requires ActionsBelow(actions, n')
    ensures GreyTables(explored + {s}, counts[s := tables], hidden[s := actions], cache, n')
  {
  }

  class GreyExplorer<S(==)> {
    const index: StateIndex<S>
    const model: Model
    const generator: Generator<S>
    const removeSelfLoops: bool
    var exploredStates: set<nat>
    /** Set when an action has just become fully explored. */
    var isNewFullyExploredActionAvailable: bool
    /** Per explored state and action: how often each successor was seen. */
    var counts: map<nat, seq<Counts>>
    /** Per explored state: its actual actions, hidden from the model. */
    var stateActions: map<nat, seq<Action>>
    var exploredActionsCount: nat
    var numTrans: nat
    var unfilteredActionsCache: map<nat, seq<Action>>
    /** Per filtered state: filtered position to actual action index. */
    var unfilteredActionIndexMap: map<nat, map<nat, nat>>
    var isFullyExploredActionFlag: bool

    ghost predicate Valid()
      reads this, index, model
    {
      && index.Valid() && model.Valid() && |model.actions| == |index.states|
      && GreyTables(exploredStates, counts, stateActions, unfilteredActionsCache, |index.states|)
    }

    constructor (model: Model, generator: Generator<S>, removeSelfLoops: bool)
      requires model.Valid() && model.actions == []
      ensures Valid() && fresh(index) && index.states == []
      ensures this.model == model && this.generator == generator && this.removeSelfLoops == removeSelfLoops
      ensures exploredStates == {} && counts == map[] && stateActions == map[]
      ensures unfilteredActionsCache == map[] && unfilteredActionIndexMap == map[]
      ensures exploredActionsCount == 0 && numTrans == 0
      ensures !isNewFullyExploredActionAvailable && !isFullyExploredActionFlag
    {
      index := new StateIndex();
      this.model := model;
      this.generator := generator;
      this.removeSelfLoops := removeSelfLoops;
      exploredStates := {};
      isNewFullyExploredActionAvailable := false;
      counts := map[];
      stateActions := map[];
      exploredActionsCount := 0;
      numTrans := 0;
      unfilteredActionsCache := map[];
      unfilteredActionIndexMap := map[];
      isFullyExploredActionFlag := false;
    }

    /** The actual index of a model position: translated while the filter is
        active. */
    function RealIndex(stateId: nat, actionIndex: nat): nat
      reads this
      requires isFullyExploredActionFlag ==> stateId in unfilteredActionIndexMap
    {
      if isFullyExploredActionFlag then IndexOf(unfilteredActionIndexMap[stateId], actionIndex) else actionIndex
    }

    /** Explores a known, unexplored state: the actual actions are kept
        aside, the model gets one empty action per choice with the choice's
        label, and every action starts with an empty count table. */
    method ExploreState(stateId: nat) returns (state: S)
      requires Valid() && stateId < |index.states| && stateId !in exploredStates
      modifies this, index, model
      ensures Valid()
      ensures exploredStates == old(exploredStates) + {stateId}
      ensures state == old(index.states[stateId])
      ensures Explored(generator.choices(state), old(index.ids), index.ids, old(index.states), index.states,
                       old(model.actions), model.actions, stateId, Unlearned(generator.choices(state), |generator.choices(state)|))
      ensures stateActions == old(stateActions)[stateId :=
        ExploredActions(generator.choices(state), index.ids, |generator.choices(state)|, stateId, removeSelfLoops)]
      ensures counts == old(counts)[stateId := EmptyTables(|generator.choices(state)|)]
      ensures exploredActionsCount == old(exploredActionsCount) + |generator.choices(state)|
      ensures numTrans == old(numTrans) && unfilteredActionsCache == old(unfilteredActionsCache)
      ensures unfilteredActionIndexMap == old(unfilteredActionIndexMap)
      ensures isFullyExploredActionFlag == old(isFullyExploredActionFlag)
      ensures isNewFullyExploredActionAvailable == old(isNewFullyExploredActionAvailable)
      ensures model.initialStates == old(model.initialStates)
    {
      state := index.states[stateId];
      var choices := generator.choices(state);
      var stateChoices, stateActionCounts := ExploreHidden(index, model, stateId, removeSelfLoops, choices);
      ExploredKeepsGreyTables(exploredStates, counts, stateActions, unfilteredActionsCache,
                              old(|index.states|), |index.states|, stateId, stateActionCounts, stateChoices);
      exploredStates, counts, stateActions, exploredActionsCount :=
        exploredStates + {stateId}, counts[stateId := stateActionCounts], stateActions[stateId := stateChoices],
        exploredActionsCount + |stateChoices|;
    }

    /** Whether all actual successors of an action have been observed. */
    function IsStateActionExplored(stateId: nat, actionIndex: nat): (b: bool)
      reads this, model
      requires stateId in stateActions && actionIndex < |stateActions[stateId]|
      requires stateId < |model.actions| && actionIndex < |model.actions[stateId]|
      ensures model.actions[stateId][actionIndex].distribution.Keys <= stateActions[stateId][actionIndex].distribution.Keys ==>
        (b <==> model.actions[stateId][actionIndex].distribution.Keys == stateActions[stateId][actionIndex].distribution.Keys)
    {
      var actual, learned := stateActions[stateId][actionIndex], model.actions[stateId][actionIndex];
      FullyExploredMeansAllSeen(actual, learned);
      FullyExplored(actual, learned)
    }

    /** The number of observations of an action, at its translated index. */
    function GetActionCounts(stateId: nat, actionIndex: nat): (n: nat)
      reads this
      requires stateId in counts && (isFullyExploredActionFlag ==> stateId in unfilteredActionIndexMap)
      requires RealIndex(stateId, actionIndex) < |counts[stateId]|
      ensures n as real == Sum(Weights(counts[stateId][RealIndex(stateId, actionIndex)]))
    {
      TotalWeights(counts[stateId][RealIndex(stateId, actionIndex)]);
      Total(counts[stateId][RealIndex(stateId, actionIndex)])
    }

    /** Counts one more observation of `successor` and returns the new
        count of that triplet. */
    method IncrementTransitionCount(state: nat, actionIndex: nat, successor: nat) returns (newCount: nat)
      requires Valid() && state in exploredStates && actionIndex < |counts[state]| && successor < |index.states|
      modifies this
      ensures Valid()
      ensures newCount == CountOf(old(counts[state][actionIndex]), successor) + 1
      ensures counts == old(counts)[state := old(counts[state])[actionIndex :=
        Bump(old(counts[state][actionIndex]), successor, 1)]]
      ensures Total(counts[state][actionIndex]) == Total(old(counts[state][actionIndex])) + 1
      ensures exploredStates == old(exploredStates) && stateActions == old(stateActions) && numTrans == old(numTrans)
      ensures exploredActionsCount == old(exploredActionsCount) && unfilteredActionsCache == old(unfilteredActionsCache)
      ensures unfilteredActionIndexMap == old(unfilteredActionIndexMap)
      ensures isFullyExploredActionFlag == old(isFullyExploredActionFlag)
      ensures isNewFullyExploredActionAvailable == old(isNewFullyExploredActionAvailable)
    {
      var transitionCounts: Counts := Bump(counts[state][actionIndex], successor, 1);
      TotalBump(counts[state][actionIndex], successor, 1);
      CountedKeepsGreyTables(exploredStates, counts, stateActions, unfilteredActionsCache, |index.states|,
                             state, actionIndex, transitionCounts);
      newCount := transitionCounts[successor];
      counts := counts[state := counts[state][actionIndex := transitionCounts]];
    }

    /** Relearns the model's action at `actionIndex` from the counts of the
        actual action with that index. */
    method UpdateStateActionDistributionInModel(state: nat, actionIndex: nat)
      requires Valid() && state in exploredStates && actionIndex < |counts[state]|
      requires actionIndex < |model.actions[state]|
      modifies model
      ensures Valid()
      ensures model.actions == old(model.actions)[state := old(model.actions[state])[actionIndex :=
        Action(FromCounts(counts[state][actionIndex], state, removeSelfLoops), old(model.actions[state][actionIndex].actionLabel))]]
      ensures model.initialStates == old(model.initialStates)
    {
      LearnAction(model, state, actionIndex, counts[state][actionIndex], removeSelfLoops);
    }

    /** Records one observation of `successor` after the actual action
        `realIndex` of `state`: its count is bumped, the model action at that
        index is relearned, and after a first observation of the triplet the
        flag is raised if that action is now fully explored. */
    method RecordObservation(state: nat, realIndex: nat, successor: nat)
      requires Valid() && state in exploredStates && successor < |index.states|
      requires realIndex < |counts[state]| && realIndex < |model.actions[state]|
      modifies this, model
      ensures Valid()
      ensures exploredStates == old(exploredStates) && stateActions == old(stateActions)
      ensures exploredActionsCount == old(exploredActionsCount) && unfilteredActionsCache == old(unfilteredActionsCache)
      ensures unfilteredActionIndexMap == old(unfilteredActionIndexMap)
      ensures isFullyExploredActionFlag == old(isFullyExploredActionFlag)
      ensures model.initialStates == old(model.initialStates)
      ensures counts == old(counts)[state := old(counts[state])[realIndex := Bump(old(counts[state][realIndex]), successor, 1)]]
      ensures model.actions == old(model.actions)[state := old(model.actions[state])[realIndex :=
        Action(FromCounts(counts[state][realIndex], state, removeSelfLoops), old(model.actions[state][realIndex].actionLabel))]]
      ensures numTrans == old(numTrans) + (if CountOf(old(counts[state][realIndex]), successor) == 0 then 1 else 0)
      ensures isNewFullyExploredActionAvailable <==> (old(isNewFullyExploredActionAvailable) ||
        (CountOf(old(counts[state][realIndex]), successor) == 0 && IsStateActionExplored(state, realIndex)))
    {
      var newTransitionCount := IncrementTransitionCount(state, realIndex, successor);
      UpdateStateActionDistributionInModel(state, realIndex);
      if newTransitionCount == 1 {
        numTrans := numTrans + 1;
        isNewFullyExploredActionAvailable := isNewFullyExploredActionAvailable || IsStateActionExplored(state, realIndex);
      }
    }

    /** Records one observation of `successor` after the model's action
        `actionIndex` of `state`, at the actual index of that action. */
    method UpdateCounts(state: nat, actionIndex: nat, successor: nat)
      requires Valid() && state in exploredStates && successor < |index.states|
      requires isFullyExploredActionFlag ==> state in unfilteredActionIndexMap
      requires RealIndex(state, actionIndex) < |counts[state]| && RealIndex(state, actionIndex) < |model.actions[state]|
      modifies this, model
      ensures Valid()
      ensures exploredStates == old(exploredStates) && stateActions == old(stateActions)
      ensures exploredActionsCount == old(exploredActionsCount) && unfilteredActionsCache == old(unfilteredActionsCache)
      ensures unfilteredActionIndexMap == old(unfilteredActionIndexMap)
      ensures isFullyExploredActionFlag == old(isFullyExploredActionFlag)
      ensures model.initialStates == old(model.initialStates)
      ensures counts == old(counts)[state := old(counts[state])[RealIndex(state, actionIndex) :=
        Bump(old(counts[state][RealIndex(state, actionIndex)]), successor, 1)]]
      ensures model.actions == old(model.actions)[state := old(model.actions[state])[RealIndex(state, actionIndex) :=
        Action(FromCounts(counts[state][RealIndex(state, actionIndex)], state, removeSelfLoops),
               old(model.actions[state][RealIndex(state, actionIndex)].actionLabel))]]
      ensures numTrans == old(numTrans) + (if CountOf(old(counts[state][RealIndex(state, actionIndex)]), successor) == 0 then 1 else 0)
      ensures isNewFullyExploredActionAvailable <==> (old(isNewFullyExploredActionAvailable) ||
        (CountOf(old(counts[state][RealIndex(state, actionIndex)]), successor) == 0 &&
         IsStateActionExplored(state, RealIndex(state, actionIndex))))
    {
      var realIndex := actionIndex;
      if isFullyExploredActionFlag {
        realIndex := IndexOf(unfilteredActionIndexMap[state], actionIndex);
      }
      RecordObservation(state, realIndex, successor);
    }

    /** Clears the flag; nothing else changes. */
    method ResetFullyExploredActionFlag()
      modifies this
      ensures !isNewFullyExploredActionAvailable
      ensures exploredStates == old(exploredStates) && counts == old(counts) && stateActions == old(stateActions)
      ensures exploredActionsCount == old(exploredActionsCount) && numTrans == old(numTrans)
      ensures unfilteredActionsCache == old(unfilteredActionsCache)
      ensures unfilteredActionIndexMap == old(unfilteredActionIndexMap)
      ensures isFullyExploredActionFlag == old(isFullyExploredActionFlag)
    {
      isNewFullyExploredActionAvailable := false;
    }

    /** Samples the actual action behind model position `filteredIndex` until
        its count reaches `requiredSamples`, adds the samples to its counts
        and relearns the model action at `filteredIndex` with the real
        action's label. The starting count is read through a second
        translation of the already translated index, as the Java code does;
        the two agree while the filter is off. */
    method SimulateActionRepeatedly(stateId: nat, filteredIndex: nat, requiredSamples: real)
      requires Valid() && stateId in exploredStates
      requires isFullyExploredActionFlag ==> stateId in unfilteredActionIndexMap
      requires RealIndex(stateId, filteredIndex) < |counts[stateId]|
      requires RealIndex(stateId, RealIndex(stateId, filteredIndex)) < |counts[stateId]|
      requires filteredIndex < |model.actions[stateId]|
      requires stateActions[stateId][RealIndex(stateId, filteredIndex)].distribution == map[] ==>
        requiredSamples <= Total(counts[stateId][RealIndex(stateId, RealIndex(stateId, filteredIndex))]) as real
      modifies this, model
      ensures Valid()
      ensures exploredStates == old(exploredStates) && stateActions == old(stateActions) && numTrans == old(numTrans)
      ensures exploredActionsCount == old(exploredActionsCount) && unfilteredActionsCache == old(unfilteredActionsCache)
      ensures unfilteredActionIndexMap == old(unfilteredActionIndexMap)
      ensures isFullyExploredActionFlag == old(isFullyExploredActionFlag)
      ensures isNewFullyExploredActionAvailable == old(isNewFullyExploredActionAvailable)
      ensures model.initialStates == old(model.initialStates)
      ensures counts == old(counts)[stateId := old(counts[stateId])[RealIndex(stateId, filteredIndex) :=
        counts[stateId][RealIndex(stateId, filteredIndex)]]]
      ensures GrownOn(old(counts[stateId][RealIndex(stateId, filteredIndex)]), counts[stateId][RealIndex(stateId, filteredIndex)],
                      stateActions[stateId][RealIndex(stateId, filteredIndex)].distribution.Keys,
                      SamplesNeeded(Total(old(counts[stateId][RealIndex(stateId, RealIndex(stateId, filteredIndex))])),
                                    requiredSamples))
      ensures model.actions == old(model.actions)[stateId := old(model.actions[stateId])[filteredIndex :=
        Action(FromCounts(counts[stateId][RealIndex(stateId, filteredIndex)], stateId, removeSelfLoops),
               stateActions[stateId][RealIndex(stateId, filteredIndex)].actionLabel)]]
      ensures !isFullyExploredActionFlag ==>
        && Total(counts[stateId][filteredIndex]) as real >= requiredSamples
        && (requiredSamples <= Total(old(counts[stateId][filteredIndex])) as real ==>
              Total(counts[stateId][filteredIndex]) == Total(old(counts[stateId][filteredIndex])))
    {
      var realIndex := filteredIndex;
      if isFullyExploredActionFlag {
        realIndex := IndexOf(unfilteredActionIndexMap[stateId], filteredIndex);
      }
      var action := stateActions[stateId][realIndex];
      var actionCounts := GetActionCounts(stateId, realIndex);
      var updated: Counts := SampleInto(counts[stateId][realIndex], action.distribution, actionCounts, requiredSamples);
      if !isFullyExploredActionFlag {
        SampledEnough(counts[stateId][realIndex], updated, action.distribution.Keys, requiredSamples);
      }
      SampledKeepsGreyTables(exploredStates, counts, stateActions, unfilteredActionsCache, |index.states|,
                             stateId, realIndex, updated, SamplesNeeded(actionCounts, requiredSamples));
      SetLearned(model, stateId, filteredIndex, updated, action.actionLabel, removeSelfLoops);
      counts := counts[stateId := counts[stateId][realIndex := updated]];
      assert RealIndex(stateId, filteredIndex) == realIndex && counts[stateId][realIndex] == updated;
    }

    /** Turns the filter on: every explored state's list is cached and the
        model keeps only its non-empty, fully explored actions, with an
        index map from their positions to their actual indices. */
    method ActivateFullyExploredActionsModel()
      requires Valid()
      requires forall s :: s in exploredStates ==> |model.actions[s]| <= |stateActions[s]|
      modifies this, model
      ensures Valid() && isFullyExploredActionFlag
      ensures exploredStates == old(exploredStates) && counts == old(counts) && stateActions == old(stateActions)
      ensures exploredActionsCount == old(exploredActionsCount) && numTrans == old(numTrans)
      ensures isNewFullyExploredActionAvailable == old(isNewFullyExploredActionAvailable)
      ensures model.initialStates == old(model.initialStates)
      ensures unfilteredActionsCache == old(unfilteredActionsCache) + Lists(old(model.actions), exploredStates)
      ensures unfilteredActionIndexMap == old(unfilteredActionIndexMap) + IndexMaps(old(model.actions), exploredStates, stateActions)
      ensures model.actions == GreyFilteredModel(old(model.actions), exploredStates, stateActions)
    {
      var cache, maps := FilterExploredModel(model, exploredStates, stateActions);
      SnapshotBelow(unfilteredActionsCache, cache, |index.states|);
      unfilteredActionsCache, unfilteredActionIndexMap, isFullyExploredActionFlag :=
        unfilteredActionsCache + cache, unfilteredActionIndexMap + maps, true;
    }

    /** Turns the filter off: every explored state gets its cached list back
        and the cache and the index maps are emptied. */
    method DeactivateFullyExploredActionsModel()
      requires Valid()
      requires forall s :: s in exploredStates ==> s in unfilteredActionsCache
      modifies this, model
      ensures Valid() && !isFullyExploredActionFlag
      ensures unfilteredActionsCache == map[] && unfilteredActionIndexMap == map[]
      ensures exploredStates == old(exploredStates) && counts == old(counts) && stateActions == old(stateActions)
      ensures exploredActionsCount == old(exploredActionsCount) && numTrans == old(numTrans)
      ensures isNewFullyExploredActionAvailable == old(isNewFullyExploredActionAvailable)
      ensures model.initialStates == old(model.initialStates)
      ensures model.actions == RestoredModel(old(model.actions), exploredStates, old(unfilteredActionsCache))
    {
      isFullyExploredActionFlag := false;
      RestoreModel(model, exploredStates, unfilteredActionsCache);
      unfilteredActionsCache, unfilteredActionIndexMap := map[], map[];
    }
  }
}
