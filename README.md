# probabilistic-models core, in Dafny

This project models the core of `probmodels`, a Java library for Markov
decision processes (MDPs) that are built and analysed on the fly. A model
gives each state an ordered list of actions. An action is a sparse
probability distribution over successor ids, plus an optional label. A
model also has a set of initial states. The modelled core has five parts:

- **End components** (`Mec.create`). A candidate set of states is shrunk, in
  place, to its largest subset in which every state keeps at least one
  action that stays inside the set. The actions retained per state are
  recorded. `equals` and `hashCode` compare and hash the state set.
- **The quotient view** (`CollapseView`). It is a read-only model that
  collapses groups of states (typically end components) into one
  representative each. A union-find overlay gives the representatives. The
  choices of the remaining states are rewritten lazily, so that they point
  only at representatives. Every structural mutator refuses to run.
- **Explorers**, which grow a partial model from a generator, one state at a
  time:
  - the default explorer stores the generator's distributions;
  - the black-box explorer gives the model empty distributions and learns
    them from successor counts, with an optional filter on how often an
    action was observed;
  - the grey-box explorer also knows each state's real actions, calls an
    action fully explored once every successor has been seen, and has an
    optional filter that shows only fully explored actions, with a
    position-to-index translation.
- **Restriction** (`RestrictedModel.buildRestrictedModel`). A model is
  restricted to a set of allowed states: the allowed states are renumbered
  densely, each action's mass on allowed targets is rescaled, and actions
  left empty are dropped.
- **The breadth-first builder** (`ModelBuilder.build`). It builds the
  complete reachable model of a generator and returns the state index.

Weights are exact reals. Where the Java code compares against one with a
floating-point tolerance, the model uses exact equality. Randomness appears
as a nondeterministic choice. The generator is a deterministic function from
a state to its choices. Each Java method becomes a Dafny method or function:
- the loops of the source keep their loops, with invariants;
- a class whose fields are updated becomes a class with `modifies` frames;
- collections the source mutates become `seq` and `map` fields, and the
  arrays of `buildRestrictedModel` stay arrays.

Files:
- `nat_sets.dfy` and `distributions.dfy`: sets of naturals, sums,
  rescaling.
- `model.dfy`: the storage model the core relies on.
- `explorer_common.dfy`: the generator, the state index, the distribution
  builder loop, learned distributions and sub-list selection.
- `learning.dfy`: what the black-box and grey-box explorers share.
- `mec.dfy`, `collapse.dfy`, `default_explorer.dfy`, `black_explorer.dfy`,
  `grey_explorer.dfy`, `restricted_model.dfy` and `model_builder.dfy`: one
  per core class.

## Model

| member | source | states |
|---|---|---|
| Mecs.Inside | src/main/java/de/tum/in/probmodels/graph/Mec.java:48-52 | an action index is kept exactly when it is an action of the state and its support lies inside the candidate set |
| Mecs.Prune | src/main/java/de/tum/in/probmodels/graph/Mec.java:46-53 | the retained actions afterwards are the previously retained ones that stay inside the set |
| Mecs.Visit | src/main/java/de/tum/in/probmodels/graph/Mec.java:34-59 | visiting one more state extends what the pass has computed: a state without choices is marked for removal; otherwise its retained actions are pruned, it is marked when none is left, and `changed` records whether anything was dropped |
| Mecs.Pass | src/main/java/de/tum/in/probmodels/graph/Mec.java:31-60 | one pass over the candidate set gives each state its pruned action set, marks exactly the states left without an action, and reports whether anything changed |
| Mecs.Create | src/main/java/de/tum/in/probmodels/graph/Mec.java:24-65 | the set is shrunk in place to a closed subset that contains every closed subset of the original candidates, so it is the largest one; a surviving state keeps exactly its actions that stay inside the result; a removed state that had an entry keeps an empty one, because line 57 removes from the action set instead of from the map |
| Mecs.PassKeepsClosed | src/main/java/de/tum/in/probmodels/graph/Mec.java:28-62 | no state of a closed subset of the original candidates is removed by a pass |
| Mecs.PassKeepsInvariant | src/main/java/de/tum/in/probmodels/graph/Mec.java:28-62 | a pass keeps the loop invariant of the fixpoint loop |
| Mecs.PassMakesProgress | src/main/java/de/tum/in/probmodels/graph/Mec.java:28-62 | every pass either removes a state, drops a retained action, or reports no change, so the `while (changed)` loop terminates |
| Mecs.Equals | src/main/java/de/tum/in/probmodels/graph/Mec.java:67-77 | two closures are equal exactly when their state sets hold the same states |
| Mecs.HashCode | src/main/java/de/tum/in/probmodels/graph/Mec.java:84-87 | the hash is a signed 32-bit value: the set's hash (the sum of its elements) times 31, wrapped around |
| Mecs.HashConsistent | src/main/java/de/tum/in/probmodels/graph/Mec.java:67-87 | equal closures have equal hash codes |
| Mecs.Wrap32 | src/main/java/de/tum/in/probmodels/graph/Mec.java:86 | the result lies in the signed 32-bit range and is congruent to its input modulo 2^32 |
| Mecs.WrapMul | src/main/java/de/tum/in/probmodels/graph/Mec.java:86 | wrapping the set hash before the multiplication by 31 gives the same result as wrapping after it |
| Collapse.RepOf | src/main/java/de/tum/in/probmodels/model/CollapseView.java:291-296 | a state beyond the union-find is its own representative; in a flat union-find every representative is a root |
| Collapse.Grown | src/main/java/de/tum/in/probmodels/model/CollapseView.java:276-278 | growing the union-find to a given size keeps it flat and keeps the representative of every state |
| Collapse.Merged | src/main/java/de/tum/in/probmodels/model/CollapseView.java:281 | after a union of two roots, exactly the states of the loser's class have the winner as their representative, and every other state is unchanged |
| Collapse.Remap | src/main/java/de/tum/in/probmodels/model/CollapseView.java:84-96 | the support of the mapped distribution is exactly the representatives of the old targets, without the state's own representative; positive weights stay positive; Collapse.RemapWeights and Collapse.RemapSum state the weights |
| Collapse.RemapWeights | src/main/java/de/tum/in/probmodels/model/CollapseView.java:86-96 | each representative the mapped distribution keeps carries the total weight of the old targets it represents |
| Collapse.RemapSum | src/main/java/de/tum/in/probmodels/model/CollapseView.java:86-96 | the mapped distribution keeps the whole weight except that of the targets represented by the state's own representative |
| Collapse.RewrittenWeights | src/main/java/de/tum/in/probmodels/model/CollapseView.java:95-103 | a touched distribution that keeps some weight becomes one distribution over the kept representatives, each weighted by the weight it represents divided by the weight kept |
| Collapse.RewriteUnchanged | src/main/java/de/tum/in/probmodels/model/CollapseView.java:105-110 | when no distribution changes, the rewritten list equals the original, which is why `computeSuccessors` may answer null |
| Collapse.RewriteRoots | src/main/java/de/tum/in/probmodels/model/CollapseView.java:134-136 | when every non-root is marked removed, the rewritten choices point only at representatives, as `getChoices` asserts |
| Collapse.RewriteAvoids | src/main/java/de/tum/in/probmodels/model/CollapseView.java:219-220 | for a group that is marked removed and shares one representative, no rewritten choice has a target inside the group |
| Collapse.RewriteStochastic | src/main/java/de/tum/in/probmodels/model/CollapseView.java:96-103 | rewriting keeps distributions that are positive and sum to one positive and summing to one |
| Collapse.Dedup | src/main/java/de/tum/in/probmodels/model/CollapseView.java:120-122 | the filtered list has no duplicates, holds exactly the same distributions, and is no longer |
| Collapse.RewriteOne | src/main/java/de/tum/in/probmodels/model/CollapseView.java:93-107 | one iterator step leaves an untouched distribution as it is, replaces a touched one by its rescaled remapping, deletes it when nothing is left, and reports whether anything changed |
| Collapse.SetToSeq | src/main/java/de/tum/in/probmodels/model/CollapseView.java:232 | the list holds exactly the elements of the set, each once |
| Collapse.RewriteAll | src/main/java/de/tum/in/probmodels/model/CollapseView.java:91-110 | `anyDifferent` holds exactly when some distribution changes; the list is then the rewrite, and otherwise the rewrite is the identity |
| Collapse.CacheKeepsInvariant | src/main/java/de/tum/in/probmodels/model/CollapseView.java:117-124 | refreshing a representative's choices and then marking its cache entry valid keeps the view's invariant |
| Collapse.CollapseRemovedExact | src/main/java/de/tum/in/probmodels/model/CollapseView.java:239-240 | after the merges, the states marked removed, less this call's representatives, are exactly the states that are no longer their own representative |
| Collapse.CollapseKeepsInvariant | src/main/java/de/tum/in/probmodels/model/CollapseView.java:168-240 | a collapse keeps the view's invariant: a flat union-find, removed states exactly the non-roots, no overwrite entry for a removed state, no duplicates, valid caches pointing at roots |
| Collapse.CollapseRemoved | src/main/java/de/tum/in/probmodels/model/CollapseView.java:184-239 | the states removed after a collapse are those removed before plus the group members that are not representatives |
| Collapse.CollapseRoots | src/main/java/de/tum/in/probmodels/model/CollapseView.java:211-232 | the choices gathered for each representative point only at representatives |
| Collapse.CollapseAvoids | src/main/java/de/tum/in/probmodels/model/CollapseView.java:225-227 | the gathered choices of a group with more than one state have no target inside the group |
| Collapse.SingletonKeepsSelfLoop | src/main/java/de/tum/in/probmodels/model/CollapseView.java:268-272 | a self-loop of a state outside the removed set survives the rewrite, so the choices of a singleton group can point into the group; remapping the self-loop would empty it, unlike the untouched distribution kept at line 106 |
| Collapse.RemovedAsWritten | src/main/java/de/tum/in/probmodels/model/CollapseView.java:239 | the clearing as written keeps only marked states and takes out every state that was ever a representative |
| Collapse.AsWrittenLosesMergedRepresentative | src/main/java/de/tum/in/probmodels/model/CollapseView.java:239-240 | a state that was once a representative and was later merged away is a non-root missing from the removed set, so the assertion of `isRemoved` fails |
| Collapse.AndNotForgetsMergedRepresentative | src/main/java/de/tum/in/probmodels/model/CollapseView.java:168-240 | in a model of four states, collapsing {0,1} and {2,3} and then {0,2} leaves removed states {1,3} as written, although three states are no longer roots; clearing only the second call's representative gives exactly those three |
| Collapse.CollapseView.constructor | src/main/java/de/tum/in/probmodels/model/CollapseView.java:38-47 | a new view over a model satisfies the invariant: an empty union-find, nothing removed, no overwrites |
| Collapse.CollapseView.Representative | src/main/java/de/tum/in/probmodels/model/CollapseView.java:291-296 | a state beyond the union-find is its own representative; every representative is a root |
| Collapse.CollapseView.IsRemoved | src/main/java/de/tum/in/probmodels/model/CollapseView.java:299-302 | under the invariant, which includes the assertion at line 300, the answer is membership in the removed set |
| Collapse.CollapseView.GetNumStates | src/main/java/de/tum/in/probmodels/model/CollapseView.java:55-57 | the number of underlying states that are not removed |
| Collapse.CollapseView.GetInitialStates | src/main/java/de/tum/in/probmodels/model/CollapseView.java:65-70 | exactly the representatives of the model's initial states, none of them removed |
| Collapse.CollapseView.Mutate | src/main/java/de/tum/in/probmodels/model/CollapseView.java:318-360 | every structural mutator fails with an unsupported-operation error |
| Collapse.CollapseView.ComputeSuccessors | src/main/java/de/tum/in/probmodels/model/CollapseView.java:78-111 | the rewritten current choices when some distribution changes, and nothing when the rewrite is the identity |
| Collapse.CollapseView.Refresh | src/main/java/de/tum/in/probmodels/model/CollapseView.java:117-125 | a stale entry is replaced by the deduplicated rewrite when it changes, and the state's cache becomes valid; the invariant is kept |
| Collapse.CollapseView.GetChoices | src/main/java/de/tum/in/probmodels/model/CollapseView.java:114-139 | the choices are refreshed at most once until the next collapse; they point only at representatives, and an overwritten list has no duplicates |
| Collapse.CollapseView.Union | src/main/java/de/tum/in/probmodels/model/CollapseView.java:281 | the two classes become one, whose root is one of the two old roots; every other class is unchanged |
| Collapse.CollapseView.UnionAll | src/main/java/de/tum/in/probmodels/model/CollapseView.java:280-281 | every state whose root was in the group gets one common representative from the group; the others are unchanged |
| Collapse.CollapseView.CollapseGroup | src/main/java/de/tum/in/probmodels/model/CollapseView.java:268-288 | a singleton only becomes a representative; a larger group grows the union-find to 2n+1, merges into a member of the group, and is marked removed |
| Collapse.CollapseView.CollapseGroups | src/main/java/de/tum/in/probmodels/model/CollapseView.java:187-191 | every group is merged into a representative in that group, in order, and the members of groups with more than one state are marked removed |
| Collapse.CollapseView.GatherGroup | src/main/java/de/tum/in/probmodels/model/CollapseView.java:202-233 | the members lose their overwrite entries, and the representative's entry holds the members' rewritten choices without duplicates |
| Collapse.CollapseView.GatherMember | src/main/java/de/tum/in/probmodels/model/CollapseView.java:211-223 | one member's rewritten choices join the gathered set, and its overwrite entry is dropped |
| Collapse.CollapseView.GatherGroups | src/main/java/de/tum/in/probmodels/model/CollapseView.java:202-234 | every group's representative holds what was gathered from the group; the other entries are as before |
| Collapse.CollapseView.Collapse | src/main/java/de/tum/in/probmodels/model/CollapseView.java:168-241 | every group becomes one representative that lies in the group; the list of representatives is returned twice over, as line 233 appends them again; representatives of other states are unchanged; the removed set grows by exactly the non-representative members (corrected at line 239, see Findings); the gathered choices point at roots and leave a merged group; the invariant is kept |
| Explorers.UnseenFresh | src/main/java/de/tum/in/probmodels/explorer/DefaultExplorer.java:64-76 | the newly indexed states are distinct, were not known before, and are exactly the named successors that were unknown |
| Explorers.StateIndex.GetStateId | src/main/java/de/tum/in/probmodels/explorer/DefaultExplorer.java:91-102 | a known state keeps its id and changes nothing; an unseen state gets the next id and a new empty model state |
| Explorers.AccumulatedSupport | src/main/java/de/tum/in/probmodels/explorer/DefaultExplorer.java:68-76 | after k transitions, the builder's support is exactly the ids of those targets, less dropped self-loops |
| Explorers.BuiltSupport | src/main/java/de/tum/in/probmodels/explorer/DefaultExplorer.java:68-77 | the stored distribution's support is exactly the ids of the choice's successors, less the source when self-loops are removed |
| Explorers.AccumulatedWeights | src/main/java/de/tum/in/probmodels/explorer/DefaultExplorer.java:68-76 | with positive weights the builder stays positive, and without a drop its sum is the sum of the weights read |
| Explorers.BuiltStochastic | src/main/java/de/tum/in/probmodels/explorer/DefaultExplorer.java:77-78 | for a proper choice the stored distribution is positive and either empty or sums to one, as line 78 asserts |
| Explorers.BuiltKeepsWeights | src/main/java/de/tum/in/probmodels/explorer/DefaultExplorer.java:77 | without self-loop removal nothing is rescaled: the stored distribution is the builder's contents |
| Explorers.BuildChoice | src/main/java/de/tum/in/probmodels/explorer/DefaultExplorer.java:66-77 | the builder loop returns the stored distribution, gives every successor an id in first-seen order, keeps earlier ids, and only appends empty states |
| Explorers.BuildStep | src/main/java/de/tum/in/probmodels/explorer/DefaultExplorer.java:68-76 | one transition extends the builder's contents and its skipped flag by that target |
| Explorers.BuiltBelow | src/main/java/de/tum/in/probmodels/explorer/DefaultExplorer.java:68-76 | every target of a stored distribution is an indexed state |
| Explorers.ExploredActionsSpec | src/main/java/de/tum/in/probmodels/explorer/DefaultExplorer.java:64-81 | the i-th explored action has choice i's label and its stored distribution |
| Explorers.ExploredAvoidsSource | src/main/java/de/tum/in/probmodels/explorer/DefaultExplorer.java:71-72 | with self-loop removal no explored action leads back to its state |
| Explorers.ExploredStochastic | src/main/java/de/tum/in/probmodels/explorer/DefaultExplorer.java:78 | for proper choices every explored action is empty or sums to one |
| Explorers.ExploreChoice | src/main/java/de/tum/in/probmodels/explorer/DefaultExplorer.java:64-81 | one pass of the choice loop yields choice j's distribution, and the explored actions grow by exactly that action |
| Explorers.Bump | src/main/java/de/tum/in/probmodels/explorer/BlackExplorer.java:105-106 | the counter of the successor grows by n from its default of zero; the other counters are unchanged |
| Explorers.TotalBump | src/main/java/de/tum/in/probmodels/explorer/BlackExplorer.java:104-106 | one more observation raises the total by exactly one per count added |
| Explorers.TotalWeights | src/main/java/de/tum/in/probmodels/explorer/BlackExplorer.java:139-142 | the integer total equals the sum of the counts read as weights |
| Explorers.FromCounts | src/main/java/de/tum/in/probmodels/explorer/BlackExplorer.java:149-168 | the learned support is exactly the observed targets, less the source when self-loops are removed |
| Explorers.FromCountsShares | src/main/java/de/tum/in/probmodels/explorer/BlackExplorer.java:156-162 | without a dropped self-loop each target gets exactly its count divided by the total |
| Explorers.FromCountsStochastic | src/main/java/de/tum/in/probmodels/explorer/BlackExplorer.java:166-167 | learned distributions over positive counts are positive and empty or sum to one, as line 167 asserts |
| Explorers.DistributionFromCounts | src/main/java/de/tum/in/probmodels/explorer/BlackExplorer.java:149-168 | the loop over the count table yields the learned distribution |
| Explorers.SelectPicks | src/main/java/de/tum/in/probmodels/explorer/BlackExplorer.java:373-388 | filtering keeps exactly the positions in the kept set, in increasing order, with their elements |
| Explorers.SelectLength | src/main/java/de/tum/in/probmodels/explorer/BlackExplorer.java:373-388 | the filtered list is as long as its list of kept indices |
| DefaultExplorers.DefaultExplorer.constructor | src/main/java/de/tum/in/probmodels/explorer/DefaultExplorer.java:40-44 | a new explorer over an empty model, with an empty index and nothing explored |
| DefaultExplorers.DefaultExplorer.ExploreState | src/main/java/de/tum/in/probmodels/explorer/DefaultExplorer.java:57-83 | the state becomes explored; its list gets one action per choice, in order, with the choice's label and stored distribution; new successors are indexed in first-seen order; earlier ids are kept |
| DefaultExplorers.DefaultExplorer.ExploreNextChoice | src/main/java/de/tum/in/probmodels/explorer/DefaultExplorer.java:64-81 | one pass of the choice loop appends choice j's action and indexes its successors |
| DefaultExplorers.DefaultExplorer.GetChoices | src/main/java/de/tum/in/probmodels/explorer/DefaultExplorer.java:116-119 | the distributions of the state's actions, in order |
| DefaultExplorers.DefaultExplorer.GetActions | src/main/java/de/tum/in/probmodels/explorer/DefaultExplorer.java:122-125 | the state's actions as the model stores them |
| Learners.UnlearnedSpec | src/main/java/de/tum/in/probmodels/explorer/BlackExplorer.java:245-247 | every action the model receives on exploration is empty and carries its choice's label |
| Learners.EmptyTables | src/main/java/de/tum/in/probmodels/explorer/BlackExplorer.java:242-243 | one empty count table per choice |
| Learners.LearnAction | src/main/java/de/tum/in/probmodels/explorer/BlackExplorer.java:119-127 | exactly the one action is replaced by the distribution learned from its counts and keeps its label |
| Learners.RestoreModel | src/main/java/de/tum/in/probmodels/explorer/BlackExplorer.java:303-305 | every explored state gets its cached list back, and nothing else changes |
| Learners.ExploreHidden | src/main/java/de/tum/in/probmodels/explorer/BlackExplorer.java:223-248 | the hidden real actions are the explored actions; the model gets the unlearned actions; every action gets an empty table; successors are indexed in first-seen order |
| BlackExplorers.CrossesAtMostOnce | src/main/java/de/tum/in/probmodels/explorer/BlackExplorer.java:114-117 | the test "total just passed τ" holds for at most one of two different totals, so it reports each action at most once |
| BlackExplorers.RelearnedSpec | src/main/java/de/tum/in/probmodels/explorer/BlackExplorer.java:179-191 | relearning keeps every label, replaces the distribution of exactly the selected actions by the learned one, and keeps the others |
| BlackExplorers.RelearnedTwice | src/main/java/de/tum/in/probmodels/explorer/BlackExplorer.java:177-194 | relearning again from the same counts, for a subset of the pairs, changes nothing |
| BlackExplorers.ResetTwice | src/main/java/de/tum/in/probmodels/explorer/BlackExplorer.java:203-207 | the flag reset is idempotent |
| BlackExplorers.ResetWeakens | src/main/java/de/tum/in/probmodels/explorer/BlackExplorer.java:203-207 | after the reset, a flag is set exactly when it was set before and its index is at least the loop bound |
| BlackExplorers.ClearFlags | src/main/java/de/tum/in/probmodels/explorer/BlackExplorer.java:204-206 | the index loop sets the flags below the bound to false and leaves the others |
| BlackExplorers.FilterRoundTrip | src/main/java/de/tum/in/probmodels/explorer/BlackExplorer.java:287-308 | activating and then deactivating the count filter gives every state its list back |
| BlackExplorers.BlackExplorer.constructor | src/main/java/de/tum/in/probmodels/explorer/BlackExplorer.java:62-66 | a new explorer over an empty model with empty tables, no filter and τ = 0 |
| BlackExplorers.BlackExplorer.UpdateCountParams | src/main/java/de/tum/in/probmodels/explorer/BlackExplorer.java:91-93 | τ takes the given value and nothing else changes |
| BlackExplorers.BlackExplorer.ExploreState | src/main/java/de/tum/in/probmodels/explorer/BlackExplorer.java:212-257 | the real actions are kept aside; the model gets one empty action per choice with its label; every action gets an empty count table and an empty flag map; the action count grows by the number of choices |
| BlackExplorers.BlackExplorer.GetActionCounts | src/main/java/de/tum/in/probmodels/explorer/BlackExplorer.java:139-142 | the number of observations equals the sum of the action's successor counts |
| BlackExplorers.BlackExplorer.UpdateCounts | src/main/java/de/tum/in/probmodels/explorer/BlackExplorer.java:104-132 | the successor's count grows by one and the total by one; numTrans grows exactly for a first observation; the result says whether the total just passed τ; with `update` only this action is relearned; the change flag is set |
| BlackExplorers.BlackExplorer.UpdateModel | src/main/java/de/tum/in/probmodels/explorer/BlackExplorer.java:177-194 | every explored state's list is relearned for the selected pairs |
| BlackExplorers.BlackExplorer.UpdateModelCounts | src/main/java/de/tum/in/probmodels/explorer/BlackExplorer.java:199-209 | the flagged actions are relearned; the flags below the number of flagged states, not below the number of actions, are then cleared for every state, as line 204 writes it |
| BlackExplorers.BlackExplorer.GetActions | src/main/java/de/tum/in/probmodels/explorer/BlackExplorer.java:373-389 | with the filter active, exactly the actions observed more than τ times, in order (by position in the current list); otherwise the stored list |
| BlackExplorers.BlackExplorer.GetChoices | src/main/java/de/tum/in/probmodels/explorer/BlackExplorer.java:348-364 | the distributions of the actions, filtered like `getActions` |
| BlackExplorers.BlackExplorer.ActivateActionCountFilter | src/main/java/de/tum/in/probmodels/explorer/BlackExplorer.java:287-295 | the unfiltered lists are cached, and every explored state keeps exactly its actions observed more than τ times |
| BlackExplorers.BlackExplorer.DeactivateActionCountFilter | src/main/java/de/tum/in/probmodels/explorer/BlackExplorer.java:300-308 | every explored state gets its cached list back, and the cache is emptied |
| BlackExplorers.RelearnList | src/main/java/de/tum/in/probmodels/explorer/BlackExplorer.java:180-190 | the inner loop builds the relearned list of one state |
| BlackExplorers.RelearnModel | src/main/java/de/tum/in/probmodels/explorer/BlackExplorer.java:179-192 | the outer loop relearns every explored state and changes nothing else |
| BlackExplorers.ClearAllFlags | src/main/java/de/tum/in/probmodels/explorer/BlackExplorer.java:203-207 | the nested reset loops reset every state's flags below the bound |
| BlackExplorers.FilterByCounts | src/main/java/de/tum/in/probmodels/explorer/BlackExplorer.java:377-385 | the filter loop keeps exactly the entries observed more than τ times, in order |
| BlackExplorers.FilterModel | src/main/java/de/tum/in/probmodels/explorer/BlackExplorer.java:291-294 | the loop caches each explored list and leaves it filtered in the model |
| GreyExplorers.FullyExploredMeansAllSeen | src/main/java/de/tum/in/probmodels/explorer/GreyExplorer.java:366-373 | when the learned successors are real successors, the size test holds exactly when every real successor has been observed |
| GreyExplorers.PositionMap | src/main/java/de/tum/in/probmodels/explorer/GreyExplorer.java:72-82 | the index map is defined on exactly the filtered positions |
| GreyExplorers.TranslationFindsAction | src/main/java/de/tum/in/probmodels/explorer/GreyExplorer.java:69-86 | filtered position k holds the action at real index `map[k]`; the real indices ascend, are kept, and cover exactly the kept actions |
| GreyExplorers.GreyFilterRoundTrip | src/main/java/de/tum/in/probmodels/explorer/GreyExplorer.java:49-67 | activating and then deactivating the fully-explored filter gives every state its list back |
| GreyExplorers.SamplesNeededSpec | src/main/java/de/tum/in/probmodels/explorer/GreyExplorer.java:277-281 | the number of samples drawn is the least one that lifts the count to the requirement, and zero exactly when the count already suffices |
| GreyExplorers.SampleUntil | src/main/java/de/tum/in/probmodels/explorer/GreyExplorer.java:273-281 | the sampling loop draws exactly the needed number of samples, all from the support, and ends at the required count |
| GreyExplorers.AddAll | src/main/java/de/tum/in/probmodels/explorer/GreyExplorer.java:282-286 | each merged count is the sum of the two counts |
| GreyExplorers.AddDrawn | src/main/java/de/tum/in/probmodels/explorer/GreyExplorer.java:282-286 | the merge loop adds every drawn count into the table |
| GreyExplorers.SampleInto | src/main/java/de/tum/in/probmodels/explorer/GreyExplorer.java:273-286 | the counts grow on the support only, by exactly the needed number of samples |
| GreyExplorers.SetLearned | src/main/java/de/tum/in/probmodels/explorer/GreyExplorer.java:287-291 | exactly the action at the filtered position is replaced by the learned distribution with the real action's label |
| GreyExplorers.FilterExplored | src/main/java/de/tum/in/probmodels/explorer/GreyExplorer.java:69-86 | the filter loop returns the non-empty, fully explored actions in order, together with their position map |
| GreyExplorers.FilterExploredModel | src/main/java/de/tum/in/probmodels/explorer/GreyExplorer.java:50-53 | the loop caches each explored list and its index map and leaves the list filtered |
| GreyExplorers.GreyExplorer.constructor | src/main/java/de/tum/in/probmodels/explorer/GreyExplorer.java:102-106 | a new explorer over an empty model with empty tables and both flags off |
| GreyExplorers.GreyExplorer.ExploreState | src/main/java/de/tum/in/probmodels/explorer/GreyExplorer.java:191-235 | the real actions are kept aside; the model gets one empty action per choice with its label; every action gets an empty count table |
| GreyExplorers.GreyExplorer.IsStateActionExplored | src/main/java/de/tum/in/probmodels/explorer/GreyExplorer.java:366-391 | when the learned successors are real ones, the answer is true exactly when all real successors have been observed |
| GreyExplorers.GreyExplorer.GetActionCounts | src/main/java/de/tum/in/probmodels/explorer/GreyExplorer.java:156-162 | the sum of the counts of the action at the translated index |
| GreyExplorers.GreyExplorer.IncrementTransitionCount | src/main/java/de/tum/in/probmodels/explorer/GreyExplorer.java:402-408 | the triplet's count grows by one from its default of zero, the new count is returned, and the total grows by one |
| GreyExplorers.GreyExplorer.UpdateStateActionDistributionInModel | src/main/java/de/tum/in/probmodels/explorer/GreyExplorer.java:410-420 | exactly the model action at that index is relearned from its counts and keeps its label |
| GreyExplorers.GreyExplorer.UpdateCounts | src/main/java/de/tum/in/probmodels/explorer/GreyExplorer.java:131-151 | the index is translated while the filter is on; the count at the real index grows; the model action at the real index is relearned, which is also its position in the filtered list; after a first observation numTrans grows and the flag is raised if that action is now fully explored |
| GreyExplorers.GreyExplorer.RecordObservation | src/main/java/de/tum/in/probmodels/explorer/GreyExplorer.java:137-150 | at an actual action index: the count of the triplet grows by one, the model action is relearned from the new counts with its label kept, numTrans grows exactly on a first observation, and only then is the flag raised when that action is fully explored; nothing else changes |
| GreyExplorers.GreyExplorer.ResetFullyExploredActionFlag | src/main/java/de/tum/in/probmodels/explorer/GreyExplorer.java:398-400 | the flag is cleared and nothing else changes |
| GreyExplorers.GreyExplorer.SimulateActionRepeatedly | src/main/java/de/tum/in/probmodels/explorer/GreyExplorer.java:266-292 | the counts of the real action grow on its support by the samples needed to lift the starting count to the requirement; that count is read through a second translation, as line 272 does; the model action at the filtered position is relearned with the real action's label; with the filter off the count then meets the requirement, and nothing is drawn when it already did |
| GreyExplorers.GreyExplorer.ActivateFullyExploredActionsModel | src/main/java/de/tum/in/probmodels/explorer/GreyExplorer.java:49-56 | the lists and index maps are cached, and every explored state keeps exactly its non-empty, fully explored actions |
| GreyExplorers.GreyExplorer.DeactivateFullyExploredActionsModel | src/main/java/de/tum/in/probmodels/explorer/GreyExplorer.java:58-67 | every explored state gets its cached list back, and the cache and index maps are emptied |
| RestrictedModels.NumberingCard | src/main/java/de/tum/in/probmodels/model/RestrictedModel.java:61-62 | the new model has as many states as there are allowed states, as line 62 asserts |
| RestrictedModels.MappingInverse | src/main/java/de/tum/in/probmodels/model/RestrictedModel.java:63-71 | the restricted-to-original array is the inverse of the numbering, in both directions |
| RestrictedModels.NumberingFits | src/main/java/de/tum/in/probmodels/model/RestrictedModel.java:56-63 | there are no more restricted states than original ones |
| RestrictedModels.RestrictedPartSpec | src/main/java/de/tum/in/probmodels/model/RestrictedModel.java:80-87 | the restricted part holds every surviving target under its restricted id, with its weight, and nothing else |
| RestrictedModels.RestrictionUnique | src/main/java/de/tum/in/probmodels/model/RestrictedModel.java:80-87 | those two properties determine the restricted part |
| RestrictedModels.RestrictDistribution | src/main/java/de/tum/in/probmodels/model/RestrictedModel.java:80-87 | the loop over a distribution's entries yields its restricted part |
| RestrictedModels.RestrictedListSpec | src/main/java/de/tum/in/probmodels/model/RestrictedModel.java:73-94 | position k holds the action at the k-th kept index, with its label and its rescaled, non-empty restricted part, and leads only to restricted ids of surviving targets |
| RestrictedModels.RestrictedStochastic | src/main/java/de/tum/in/probmodels/model/RestrictedModel.java:91 | a kept action with positive weights is rescaled to total weight one |
| RestrictedModels.Number | src/main/java/de/tum/in/probmodels/model/RestrictedModel.java:56-59 | the allowed states are numbered injectively onto the new model's states; every other state gets -1 |
| RestrictedModels.PrefixSelects | src/main/java/de/tum/in/probmodels/model/RestrictedModel.java:75-93 | after n actions, the appended actions are the kept ones among them and the removed indices are the other ones |
| RestrictedModels.PrefixComplete | src/main/java/de/tum/in/probmodels/model/RestrictedModel.java:74-94 | the whole loop appends the restricted list; the complement of the removed indices is exactly the kept indices |
| RestrictedModels.RestrictAction | src/main/java/de/tum/in/probmodels/model/RestrictedModel.java:77-92 | one action is appended, rescaled, unless nothing survives, and the flag reports exactly that case |
| RestrictedModels.AppendRestricted | src/main/java/de/tum/in/probmodels/model/RestrictedModel.java:75-93 | the inner loop appends every contributing action and returns the indices of the others |
| RestrictedModels.RestrictActions | src/main/java/de/tum/in/probmodels/model/RestrictedModel.java:73-94 | the restricted list is appended to the restricted id's list in the original model, and the kept indices are returned |
| RestrictedModels.RestrictAll | src/main/java/de/tum/in/probmodels/model/RestrictedModel.java:66-98 | each allowed state records its original id and its kept action indices under its restricted id, and its restricted list is appended |
| RestrictedModels.RestrictInitialStates | src/main/java/de/tum/in/probmodels/model/RestrictedModel.java:99-104 | the new model's initial states grow by the restricted ids of the allowed initial states |
| RestrictedModels.BuildRestrictedModel | src/main/java/de/tum/in/probmodels/model/RestrictedModel.java:53-109 | fails with an illegal argument, changing nothing, exactly when the new model is not empty; otherwise: one state per allowed state; the mapping is the inverse of the numbering; the kept action indices per state; the restricted actions appended to the original model, as line 91 writes it; the restricted initial states |
| ModelBuilders.BuiltActionsMeaning | src/main/java/de/tum/in/probmodels/model/ModelBuilder.java:28-40 | each built action has as support exactly the ids of its choice's successors, and sums to one for a proper choice |
| ModelBuilders.ReachedIndexed | src/main/java/de/tum/in/probmodels/model/ModelBuilder.java:23-41 | once the index holds the initial states and the successors of all its states, every state on a path from an initial state is indexed |
| ModelBuilders.AddSuccessor | src/main/java/de/tum/in/probmodels/model/ModelBuilder.java:31-36 | a known successor keeps its id; an unknown one is enqueued and gets the next model state |
| ModelBuilders.BuildDistribution | src/main/java/de/tum/in/probmodels/model/ModelBuilder.java:29-38 | the entry loop returns the sum of the weights per successor id; new successors are enqueued and indexed in first-seen order |
| ModelBuilders.ProcessState | src/main/java/de/tum/in/probmodels/model/ModelBuilder.java:24-40 | a polled state gets one unlabelled action per choice, in order, each built from its successors |
| ModelBuilders.AddInitialStates | src/main/java/de/tum/in/probmodels/model/ModelBuilder.java:17-21 | the initial states get consecutive new ids and become the model's initial states |
| ModelBuilders.Build | src/main/java/de/tum/in/probmodels/model/ModelBuilder.java:13-43 | the result indexes the initial states first; the new states get ids in order; every indexed state's list is its built actions; earlier states are untouched; the initial ids are added to the initial states |

## Left out

- The storage backend (`Model.java` and its implementations) is not part of this model. `Models.Model` keeps only the state lists and the initial states that the core reads and writes.
- `StateToIndex` is a library class and is modelled as a map from states to ids, with the explorers' dense id order.
- Floating point: weights are exact reals, and `Util.isOne` becomes exact equality.
- Explorers.Ratio: an action whose counts total zero gives 0 here; Java divides by `0.0` and gets NaN.
- Randomness (`sample`, `sampleUniform`) is a nondeterministic choice. `sampleNextAction`, `sampleState` and `simulateAction` only draw a random value and are left out.
- BlackExplorers.BlackExplorer.UpdateCountParams: takes τ as a parameter instead of computing `log(confidence)/log(1-pMin)`, which needs floating-point logarithms.
- The `of` factories and the getters (`exploredStates`, `model`, `getNumTrans`, `isExploredState`, `getState`, `toString`, `initialStates`) are left out. The factories only call `getStateId`, `exploreState` and `setInitialStates`. The getters return a field.
- GreyExplorer's `getChoices`, `getActions` and `getStateId` are left out: they delegate to the model and to the shared state index, exactly like the default explorer's, which are modelled.
- `getActualSuccessorsOfStateAction` is folded into GreyExplorers.GreyExplorer.IsStateActionExplored.
- CollapseView's `getNumTransitions`, `getChoice`, `getActions`, `getSuccessors`, `isInitialState`, `removedStates`, `getModel` and `getModelType` are left out. So is its logging block (lines 242-263), which only writes to the log.
- Collapse.CollapseView.Union: which of the two roots survives a union is the library's choice and is left nondeterministic. The union-find's `add(2n+1)` is read as growing it to 2n+1 elements.
- Collapse.CollapseView.Collapse: requires pairwise disjoint groups. The Java assertion also admits two equal groups, a case the model does not cover.
- Collapse.CollapseView.GetChoices: requires a state that is not removed; Java asserts this.
- RestrictedModels.BuildRestrictedModel: requires the two models to be different objects. It also requires allowed states to be states of the model, because Java would throw an index exception otherwise. The actions of a state are read once, as a snapshot. Java iterates the live list, which can grow through line 91 when a state's restricted id equals its own id.
- `buildMdpRewards` in RestrictedModel.java (rewards) is left out.
- GreyExplorers.GreyExplorer.SimulateActionRepeatedly: requires a non-empty support whenever samples are needed. Java would otherwise fail on an empty distribution's `sample()`.
- ModelBuilders.Build: requires a finite set closed under successors that holds the initial states; a finite reachable space is what lets the loop end. It also requires distinct initial states: Java would index a duplicate initial state twice and leave a state without an id.
- Requires that stand for Java runtime exceptions (a missing map entry, an array or list index out of bounds) are preconditions of the members concerned, not modelled errors.
- BlackExplorers.BlackExplorer.DeactivateActionCountFilter: requires every explored state to be in the unfiltered-actions cache. Java does not keep that up: a state explored after `activateActionCountFilter` has no cache entry (`exploreState`, BlackExplorer.java:212-257, does not add one), so `deactivateActionCountFilter` then stores null as its actions (line 304). The model does not cover that sequence.
- GreyExplorers.GreyExplorer.DeactivateFullyExploredActionsModel: the same requires and the same gap. A state explored after `activateFullyExploredActionsModel` gets null actions at GreyExplorer.java:62.
- Collapse.CollapseAvoids: proved only for groups of more than one state. `collapse(IntSet)` does not mark the state of a singleton group removed (CollapseView.java:268-272), so a self-loop of that state is left untouched and stays among the group's choices. The Java assertions that no gathered choice has a target in its group (lines 219-220 and 226-227), and that an untouched distribution equals its remapped, rescaled self (line 106), therefore fail for such a state, as Collapse.SingletonKeepsSelfLoop shows. The model keeps the Java behaviour and promises no avoidance for singletons.
- `CTMDPBlackExplorer`, the generators and the graph analysers are not part of this model.
- Concurrency is not modelled; the core is single-threaded.

## Findings

| source | as written | input that shows it | evidently intended | confidence | as-written member | corrected member |
|---|---|---|---|---|---|---|
| src/main/java/de/tum/in/probmodels/model/CollapseView.java:239 | `removedStates.andNot(representativeStates)` clears every state that was ever a representative, so a former representative merged away by a later collapse is no longer marked removed, against the assertion of `isRemoved` (line 300) | four states; collapse {0,1} and {2,3}, then collapse {0,2}: three states are no longer roots, but only {1,3} stay removed | clear only this call's representatives from the removed set | high; not executed | Collapse.AndNotForgetsMergedRepresentative | Collapse.CollapseView.Collapse |
