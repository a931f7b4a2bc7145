# Models and proofs for KushDB

KushDB compiles SQL queries to machine code. This project models the parts of it whose
correctness is not visible from any single function, and proves what they are for.

- **Adaptive join** (`Vectors`, `ProgressTrees`, `JoinStates`, `PredicateFlags`, `JoinFlags`,
  `JoinCode`, `JoinScan`, `JoinEngine`, `Boxes`, `Rewards`, `SkinnerJoin`, `UctAgents`, `SmallBudgets`).
  The join runs in short episodes, each with its own table order. A tree of resume points and one offset per
  table record what is done. The model contains the generated join code itself as a recursive class
  method, the state that survives an episode, the reward, and the search tree that picks orders. The
  main theorem is the contract of `UctAgents.ExecutePermutableSkinnerJoin`: with two units of budget for
  each table, whatever orders are chosen, the loop ends and the output lists every matching
  combination of rows exactly once and nothing else. `SmallBudgets` shows that one unit less is not
  enough.
- **Control-flow simplifier** (`Khir`, `KhirSemantics`, `Lookups`, `Ssa`, `DeadBlocks`,
  `CfgSimulation`, `CfgPreservation`, `ChainMerge`, `MergeInvariant`, `CfgMerge`, `LiveChains`,
  `CfgRewrite`, `RemainingCode`, `CfgSimplify`, `EndlessMerging`, `SelfPhis`, `SimplifiedGraph`,
  `FunctionBuilder`). KHIR is the compiler's intermediate language. `SimplifiedGraph.CFGSimplify` is the
  pass as written, for every function in SSA form. It has a result exactly if a condition on the
  function holds, and then returns a function that implements a plan of merged chains and replaced phis.
  `CfgPreservation.SimplificationPreservesMeaning` says that such a function returns the same
  value, leaves the same store and shows the same trace of operations as the original one, on
  every machine and from every state, or that neither returns; `SimplifiedGraph.SimplifyAndRun` puts
  the two together. `CfgMerge.MergeAll` and `RemainingCode.LookupsEndExactly` are the two halves of the
  condition.
- **Planner** (`PlanModel`, `Pushdown`, `EarlyProjection`, `ProjectionPass`, `SelectPlanner`).
  Plans are trees with a row semantics. Predicate pushdown and column pruning together are proved
  to compute the aggregates of the filtered cross product.
- **Hash tables and indexes** (`Masks`, `PagedRows`, `Probing`, `AggregateTable`,
  `AggregateHashTable`, `ColumnIndex`, `EnumDictionary`, `Buckets`, `BucketIntersection`,
  `RepeatedBatches`, `ReadOnce`). Each structure is proved to
  agree with a map or with an intersection of sets, over every sequence of calls.
- **Scheduler** (`Pipelines`, `TopologicalSort`, `QueryExecution`, `RunOrder`, `ChunkedTable`). A run
  is the sequence of calls into compiled code; the theorems are about every run.
- **Dates and union-find** (`Dates`, `UnionFind`), and shared definitions (`Sequences`, `Arithmetic`,
  `Wrappers`).

Random choices, clocks and the contents of compiled predicates are parameters or arbitrary values
of the model. Doubles are exact reals. Files are sequences and maps of the fields written to them.

Eight results differ from what one might expect of the code.

- The budget of an episode has to be at least twice the number of tables. With at most one unit for
  each table every join without predicates ends after its first episode with an empty result
  (`SmallBudgets.EndsTooEarly`); with more, but less than two, a join can repeat its first vector
  forever (`SmallBudgets.NeverEnds`). `SmallBudgets.BudgetIsExact` states the bound in both directions.
- `Rewards.Reward` applied to arbitrary vectors can be negative although the final vector is ahead of
  the resume vector (`Rewards.ForwardCanBePunished`). `Rewards.ProgressSign` gives the exact condition,
  and `SkinnerJoin.EpisodeIsRewarded` shows that the vectors of an episode satisfy it.
- Merging blocks does not end normally exactly if, once the dead blocks are dropped, some cycle has one
  successor and one predecessor at every block (`CfgMerge.MergeAll`). The loop then comes to a block that
  it merges with itself; `EndlessMerging.SelfLoop` is such a function.
- In unreachable code a phi can come to stand for itself, and then looking it up goes on forever. The pass
  ends exactly if this concerns no operand of an instruction that remains
  (`RemainingCode.LookupsEndExactly`). `SelfPhis.UsedPhiNeverEnds` gives a function for both cases.
- With three and more buckets a batch of the intersection repeats the last value of the batch before
  exactly if another bucket has overtaken the scanned one (`RepeatedBatches.RepeatsExactly`).
  `ReadOnce.ReadIntersection` decides from the buckets, the bound and the batch size whether a reading
  repeats any value.
- With a single table, conjuncts that read no column are dropped
  (`SelectPlanner.ConstantConjunctIsDropped`). `SelectPlanner.SingleTableExactly` gives the exact
  condition under which the result is still right.
- With two and more tables such a conjunct becomes a join condition without a flag, and the first episode
  throws when it sets the flags (`JoinFlags.PrepareJoin`).
- A chunk of an aggregate table is handed over from the start of its page, so rows before the chunk
  are repeated unless it starts at a page boundary (`AggregateHashTable.ChunkIsExact`). Read through
  the scheduler's chunks, a table is handed over exactly if it has one chunk only or if the rows of a
  page divide the chunk size (`ChunkedTable.ChunkedReadIsExact`).

## Model

| member | source | states |
|---|---|---|
| Vectors.PredecessorIsBefore | runtime/skinner_join_executor.cc:84-99 | being at or before the mixed-radix predecessor of a vector is being strictly before the vector, for all vectors in range |
| ProgressTrees.BehindIsProcessed | runtime/skinner_join_executor.cc:64-108 | if the tree covers the processed set, every vector at or before the resume point of any order has been processed, also for orders that share only a prefix of the tree |
| ProgressTrees.AdvanceCovers | runtime/skinner_join_executor.cc:143-190 | updating the tree keeps it covered by the processed set |
| ProgressTrees.AdvanceIsTree | runtime/skinner_join_executor.cc:143-190 | the updated tree is still prefix closed with rows in range |
| ProgressTrees.AdvanceOwn | runtime/skinner_join_executor.cc:143-190 | after the update the order's own resume point has reached the new vector |
| ProgressTrees.AdvanceMonotone | runtime/skinner_join_executor.cc:143-190 | an update for one order moves no other order's resume point back |
| ProgressTrees.RegressesExactly | runtime/skinner_join_executor.cc:162-164 | the "Negative progress was made" error is raised exactly if the vector lay behind the resume point and is not the stored one |
| ProgressTrees.AheadNeverRegresses | runtime/skinner_join_executor.cc:162-164 | a vector ahead of the resume point never raises that error |
| JoinStates.FinishedRowIsExact | runtime/skinner_join_executor.cc:121-141 | the row to which the first table's offset is raised is the last one all of whose combinations lie at or before the completed vector |
| JoinStates.OffsetRises | runtime/skinner_join_executor.cc:139-140 | only the offset of the first table moves, never back, and if so to the finished row |
| JoinStates.AdvanceShrinksRemaining | runtime/skinner_join_executor.cc:876-878 | an update that reaches a new vector strictly shrinks the set of order and vector pairs still ahead, the measure of the episode loop |
| JoinStates.TryDecrement | runtime/skinner_join_executor.cc:84-99 | the in-place borrow loop yields the mixed-radix predecessor, or reports that there is none |
| JoinStates.ZeroFrom | runtime/skinner_join_executor.cc:78-82 | positions after the stored prefix become zero and the prefix stays |
| JoinStates.JoinState.GetLastCompletedTupleIdx | runtime/skinner_join_executor.cc:64-108 | returns the resume point of the order, or nothing if nothing lies behind it |
| JoinStates.JoinState.Update | runtime/skinner_join_executor.cc:110-191 | offsets, tree and finished flag change as specified; the state stays sound for the processed set, and when the join is finished the whole cross product has been processed; offsets keep leading the tree |
| JoinStates.JoinState.UpdateTree | runtime/skinner_join_executor.cc:143-190 | walks, replaces and extends one path so that the new tree is an advance of the old one |
| JoinStates.UpdateKeepsSound | runtime/skinner_join_executor.cc:110-191 | offsets, tree and finished flag stay justified by the processed set |
| JoinStates.UpdateKeepsLead | runtime/skinner_join_executor.cc:121-190 | once any order has passed all vectors with a given row of its first table, the offset of that table has reached the row; every update keeps this for all orders |
| JoinStates.ResumeWithinOffset | runtime/skinner_join_executor.cc:64-108 | a resume point at the end of a block of its first table lies within that table's offset |
| PredicateFlags.EvaluatedOnce | runtime/skinner_join_executor.cc:378-414 | in every table order each predicate is enabled at exactly one table, the last of its tables |
| PredicateFlags.FlagsSuit | compile/translators/permutable_skinner_join_translator.cc:272-293 | the flags the translator allocates suffice for every order that extends the fixed prefix, so the map lookup never fails |
| PredicateFlags.MatchesByPosition | runtime/skinner_join_executor.cc:378-414 | a vector satisfies all predicates exactly if it passes the enabled ones position by position |
| PredicateFlags.TogglePredicateFlags | runtime/skinner_join_executor.cc:378-414 | sets exactly the flags of the predicates evaluated at each position and clears all others |
| JoinFlags.AllocateFlags | compile/translators/permutable_skinner_join_translator.cc:272-293 | one flag for each predicate and table it reads, except at the first table of a fixed prefix; no two share a number |
| JoinFlags.PlannedJoinRuns | plan/planner.cc:509-520 | every condition of a planned join has a flag if and only if every conjunct of WHERE reads a column, and then the flags are those that the join relies on |
| JoinFlags.PrepareJoin | runtime/skinner_join_executor.cc:378-414 | for a planned join, setting the flags for any order succeeds exactly if every conjunct of WHERE reads a column |
| JoinCode.PassesFlagsAtPosition | compile/translators/permutable_skinner_join_translator.cc:746-803 | checking the flagged predicates of a table is checking those evaluated at its position |
| JoinEngine.Engine.SetJoinOrder | runtime/skinner_join_executor.cc:351-364 | the handlers chain the tables in the given order and end in the tuple handler |
| JoinEngine.Engine.SetResumeProgress | runtime/skinner_join_executor.cc:366-376 | progress is the componentwise maximum of offset and last completed vector |
| JoinEngine.Engine.ValidTuple | compile/translators/permutable_skinner_join_translator.cc:842-912 | a combination is output once; repetitions are dropped but counted |
| JoinEngine.Engine.TableFunction | compile/translators/permutable_skinner_join_translator.cc:330-836 | runs the subtree of a table: everything between resume point and stopping point is processed or excluded, the returned budget or code says where it stopped, and a run that gained nothing has used no more than the stated slack; the budget it used is the number of rows it looked at; only matching vectors that are neither excluded nor before the resume point are handed to the tuple handler, and all of those that it settled; unless an index intersects more than two buckets it does exactly what the scan function says |
| JoinEngine.Engine.RowLoop | compile/translators/permutable_skinner_join_translator.cc:458-836 | the loop over candidate rows: all rows, or those in all buckets of an index, which hands them over in batches of 64; with more than two buckets the last row of a batch may come again in the next one |
| JoinEngine.Engine.VisitRow | compile/translators/permutable_skinner_join_translator.cc:708-829 | one row costs one unit of budget; it is rejected, stops the run, or descends to the next table |
| JoinEngine.Engine.CheckRow | compile/translators/permutable_skinner_join_translator.cc:716-803 | a row passes exactly if the predicates evaluated at its position hold |
| JoinEngine.BucketsByPosition | compile/translators/permutable_skinner_join_translator.cc:358-430 | a row is in all buckets that a table function looks up exactly if the equality predicates evaluated at its position hold, and a row outside is one that the predicates reject |
| JoinScan.ScanTableAscends | compile/translators/permutable_skinner_join_translator.cc:330-836 | the generated code visits vectors strictly in the order of the join |
| JoinScan.ScanIsDistinct | compile/translators/permutable_skinner_join_translator.cc:330-836 | hence it visits none twice |
| Rewards.FractionSign | runtime/skinner_join_executor.cc:252-274 | the sign of a mixed-radix fraction is the sign of its first non-zero digit |
| Rewards.Reward | runtime/skinner_join_executor.cc:252-274 | the loop computes half of the progress between the clamped vectors plus half of the result tuples for each unit of budget |
| Boxes.BeforeSize | runtime/skinner_join_executor.cc:261-269 | how many vectors of a box come before a given one is the vector read as a mixed-radix number |
| Rewards.ProgressIsShare | runtime/skinner_join_executor.cc:252-274 | the progress is the share of all vectors not behind the offsets that lie from the clamped resume vector up to the clamped final one in the order of the join, and negative when they are reversed |
| Rewards.ProgressSign | runtime/skinner_join_executor.cc:252-274 | the progress part is non-negative exactly if the clamped final vector is not before the clamped resume vector |
| Rewards.ForwardIsRewarded | runtime/skinner_join_executor.cc:252-274 | final vectors that stay above the offsets and do not fall behind the resume vector are never punished, although the offsets change between the run and the reward |
| Rewards.ForwardCanBePunished | runtime/skinner_join_executor.cc:252-274 | a concrete vector, not one an episode can end with, that is ahead of the resume vector and has negative progress |
| SkinnerJoin.ComputeLastCompletedTuple | runtime/skinner_join_executor.cc:207-250 | turns the stopping point of an episode into the last completed vector: maximal digits below a rejected row, the predecessor of an accepted one, and the last vector of all when the accepted one is the first |
| SkinnerJoin.WrappingDecrement | runtime/skinner_join_executor.cc:237-247 | yields the predecessor, and wraps to all digits maximal exactly at the zero vector |
| SkinnerJoin.EpisodeAdvances | runtime/skinner_join_executor.cc:323-348 | after an episode whose budget exceeds the slack everything up to its final vector is processed and the final vector lies strictly ahead of the resume point |
| SkinnerJoin.BudgetSuffices | runtime/skinner_join_executor.cc:323-348 | twice as much budget as there are tables exceeds the slack of every episode, because the offset has passed a resume point that ends a block |
| SkinnerJoin.EpisodeIsRewarded | runtime/skinner_join_executor.cc:323-348 | whatever the budget, the reward of every episode that the update accepts is non-negative |
| SkinnerJoin.JoinEnvironment.RunEpisode | runtime/skinner_join_executor.cc:323-348 | for every positive budget the episode resumes at the resume point of its order, looks at no more rows than its budget, and at exactly as many if it is interrupted; it visits only matching vectors that are neither excluded nor before the resume point, and all of those that it moves over, outputs those that are new, and reports the final vector of its run; with two units for each table everything up to it is processed and it lies ahead |
| SkinnerJoin.JoinEnvironment.Execute | runtime/skinner_join_executor.cc:323-348 | for every positive budget: the state changes as the update of the final vector says, and there is a reward exactly if the update does not throw, namely half the progress from the resume vector to the final one under the updated offsets plus half the visits for each unit of budget, which is non-negative; every combination added to the output is one of the visits, and each visit counts once; with two units for each table the update never throws, the state stays sound and the remaining set shrinks |
| UctAgents.BestAction | runtime/skinner_join_executor.cc:712-749 | finds a recommended action of the best quality and never divides by zero tries |
| UctAgents.TakeAction | runtime/skinner_join_executor.cc:712-749 | takes and removes a queued action, or one of the best quality if none is queued; always a recommended one |
| UctAgents.QualityIsMean | runtime/skinner_join_executor.cc:736-742 | the quality of an action is its mean reward plus the exploration term |
| UctAgents.RecommendedExactly | runtime/skinner_join_executor.cc:617-630 | an action is recommended exactly if it is at the root, its table is connected to the joined ones, or no missing table is |
| UctAgents.CompleteOrder | runtime/skinner_join_executor.cc:664-710 | the random playout completes the chosen prefix to an order of all tables, and takes a connected table wherever a missing one is connected |
| UctAgents.UctJoinAgent.UpdateStatistics | runtime/skinner_join_executor.cc:751-756 | counts the visit and the try, adds the reward to the action, and changes no other node |
| UctAgents.UctJoinAgent.Sample | runtime/skinner_join_executor.cc:640-661 | walks the tree and runs one episode with a permutation of the tables that extends the fixed prefix; unless the episode threw, every node on the way of that order gains one visit, exactly its action for the next table of the order gains one try and the reward of the episode, all other statistics stay, and at most one node is created |
| UctAgents.UctJoinAgent.Act | runtime/skinner_join_executor.cc:798-808 | one round of the agent from the root; after rounds 10, 100 and so on it starts with a new tree if so configured; with two units of budget for each table the join state stays sound and either finishes or strictly advances |
| UctAgents.ExecutePermutableSkinnerJoin | runtime/skinner_join_executor.cc:840-879 | with two units of budget for each table the join ends, and its output contains exactly the matching combinations, each once |
| SmallBudgets.StopsOnTheWayDown | compile/translators/permutable_skinner_join_translator.cc:708-829 | with at most one unit for each table the generated code gives up before its first vector, at a position where all rows are zero |
| SmallBudgets.SecondVectorStops | compile/translators/permutable_skinner_join_translator.cc:708-829 | with a little more it repeats the first vector and gives up on the way to the second |
| SmallBudgets.EndsTooEarly | runtime/skinner_join_executor.cc:207-250 | with at most one unit for each table every join without predicates is finished after one episode, with empty output although every combination matches |
| SmallBudgets.NeverEnds | runtime/skinner_join_executor.cc:323-348 | if the second vector differs at position d of the order, then with more than n and at most 2n - d units no number of episodes emits anything but the first vector or finishes the join |
| SmallBudgets.BudgetIsExact | runtime/skinner_join_executor.cc:323-348 | every interrupted episode over n tables gains a vector beyond its resume point if and only if the budget is at least 2n |
| SmallBudgets.DryRun | compile/translators/permutable_skinner_join_translator.cc:708-829 | in a join without predicates, with a budget of zero or less the generated code emits the first vector and returns a negative number |
| SmallBudgets.DryEpisode | runtime/skinner_join_executor.cc:207-250 | such an episode reports all vectors with the same row of the first table as processed, or none of them when the number happens to be -2, which happens exactly if the budget is two less than the number of tables |
| SmallBudgets.DryEpisodeLosesRows | runtime/skinner_join_executor.cc:207-250 | in a join without predicates, if a table after the first has two rows, the first such episode reports a combination as processed that it has not emitted |
| Khir.DominanceIsAntisymmetric | khir/cfg_simplify.cc:287-289 | two different reachable blocks do not dominate each other, the reason why value lookups and merges end in reachable code |
| DeadBlocks.DeletedIsUnreachable | khir/cfg_simplify.cc:12-48 | a block marked deleted is not on any path from the entry |
| DeadBlocks.GetDeletedBlocks | khir/cfg_simplify.cc:12-48 | deletes only unreachable blocks, and all of them exactly if there are no unreachable cycles; the deleted set is closed and was marked in an order in which predecessors come first |
| DeadBlocks.DeadSetIsUnique | khir/cfg_simplify.cc:12-48 | the set of marked blocks does not depend on the order in which the work list is processed |
| KhirSemantics.ExecConcat | khir/cfg_simplify.cc:331-333 | straight-line code runs through into what is put behind it |
| Ssa.SsaExample | khir/cfg_simplify.cc:291-310 | a function with a phi and its member satisfies the SSA conditions under which the theorems hold |
| Ssa.MemberDefinedAbove | khir/cfg_simplify.cc:291-310 | the value a phi member hands to a merged block is defined in a strictly dominating block |
| Ssa.ValueMapDescends | khir/cfg_simplify.cc:163-169 | in reachable code, replacing a phi by the value of its only member moves up the dominator tree |
| Lookups.EndsWithin | khir/cfg_simplify.cc:163-169 | a lookup that ends takes no more turns than the value map has entries |
| Lookups.ResolveValue | khir/cfg_simplify.cc:163-169 | for every value map, the lookup loop gives the value that finally stands for the operand, or none exactly if it goes on forever |
| CfgSimulation.ReadResolved | khir/cfg_simplify.cc:163-172 | in reachable code the lookup of an operand ends, and the operand read before the rewrite and its replacement read afterwards give the same value |
| CfgSimulation.RewriteReadsSame | khir/cfg_simplify.cc:50-212 | every rewritten instruction reads the same values as the original one |
| CfgSimulation.RunCommon | khir/cfg_simplify.cc:352-360 | code kept in a merged block does the same to the store and the trace as in the original block |
| CfgPreservation.FreshAtUse | khir/cfg_simplify.cc:291-310 | on any run, a definition that strictly dominates a phi has not been executed again since the phi's last execution when the phi is used |
| CfgPreservation.RunInner | khir/cfg_simplify.cc:287-349 | where the original branches from one block of a chain to the next, the merged block falls through in a corresponding state |
| CfgPreservation.RunTail | khir/cfg_simplify.cc:231-260 | both functions leave the last block of a chain the same way |
| CfgPreservation.EverySimplifiedRun | khir/cfg_simplify.cc:370-394 | for every number of blocks the simplified function has run, the original one reaches a configuration with the same store and trace at the corresponding place |
| CfgPreservation.SimplificationPreservesMeaning | khir/cfg_simplify.cc:370-394 | on every machine and from every state, the original and the simplified function return the same value with the same store and trace, or neither returns |
| ChainMerge.JoinedIndices | khir/cfg_simplify.cc:312-333 | joining two chains drops exactly the trailing members and branch of the first and the leading phis of the second |
| ChainMerge.MergeSegments | khir/cfg_simplify.cc:312-333 | trimming and concatenating segments keeps the invariant that they list the chain's instructions, also when a segment becomes empty |
| MergeInvariant.LinkFound | khir/cfg_simplify.cc:287-289 | one successor with one predecessor in the edited lists means an only edge between blocks of the original graph that are not dead |
| MergeInvariant.NoReachableCycle | khir/cfg_simplify.cc:287-289 | a cycle whose blocks all have one successor and one predecessor is not reachable |
| MergeInvariant.JoinPartition | khir/cfg_simplify.cc:331-336 | after a merge every reachable block is still in exactly one chain |
| MergeInvariant.JoinNeighbours | khir/cfg_simplify.cc:338-348 | the edited successor and predecessor lists stay mirror images and lead to heads of chains |
| MergeInvariant.JoinValueMap | khir/cfg_simplify.cc:296-310 | the value map holds exactly the removed phis with the values of their members |
| CfgMerge.CollectPhis | khir/cfg_simplify.cc:293-310 | pairs the leading phis with the members before the branch; the "Missing phi member" error is raised exactly if one is missing |
| CfgMerge.Redirect | khir/cfg_simplify.cc:341-348 | the merged block takes the place of the deleted one in the predecessor lists of its new successors, and nowhere else |
| CfgMerge.JoinSegments | khir/cfg_simplify.cc:312-333 | the edits of both segment lists amount to trimming and concatenating |
| CfgMerge.MergeSuccessor | khir/cfg_simplify.cc:287-349 | one merge keeps the whole invariant and never raises an error |
| CfgMerge.LiveNeighbours | khir/cfg_simplify.cc:266-281 | the working lists are the original ones without dead blocks |
| CfgMerge.MergeAll | khir/cfg_simplify.cc:266-350 | the loops end normally, and leave no block that could be merged with its successor, if and only if no cycle of blocks that are not dead has one successor and one predecessor at every block; otherwise they come to a block that is merged with itself, and the outcome says how its list of segments then fails |
| CfgMerge.MergeWithItself | khir/cfg_simplify.cc:312-333 | merging a block with itself reads the first segment of an empty list exactly if the block has nothing but its phis, members and branch; otherwise it appends a range of a list to that list |
| CfgMerge.SelfMergeRepeats | khir/cfg_simplify.cc:287-349 | as far as the edges go, merging a block that is its own only neighbour with itself changes nothing, so the loop condition holds again |
| CfgRewrite.RewriteInstr | khir/cfg_simplify.cc:50-212 | rewrites exactly the operands that the opcode class allows, or has no result exactly if one of these lookups goes on forever |
| CfgRewrite.RewriteAll | khir/cfg_simplify.cc:352-360 | exactly the instructions of the remaining blocks are rewritten; this ends if and only if all lookups for these instructions end |
| RemainingCode.RemainsExactly | khir/cfg_simplify.cc:312-333 | which instructions of the original function remain after merging, in terms of the original edges |
| RemainingCode.LookupEndsExactly | khir/cfg_simplify.cc:296-310 | a lookup in the value map ends exactly if the replacements in the original function lead to a value that is not replaced |
| RemainingCode.LookupsEndExactly | khir/cfg_simplify.cc:352-360 | after merging, rewriting ends if and only if, in the original function, every value looked up for a remaining instruction leads to a value that is not replaced |
| RemainingCode.ReachableCodeSettles | khir/cfg_simplify.cc:352-360 | the lookups for instructions of reachable code always end |
| LiveChains.ListedPlan | khir/cfg_simplify.cc:378-392 | the chains in output order and the value map form a plan for the whole function |
| CfgSimplify.MergeBasicBlocks | khir/cfg_simplify.cc:263-368 | has a result exactly if merging and lookups end; then the merged blocks, rewritten instructions and value map form a plan, and nothing is left to merge |
| CfgSimplify.NumberBlocks | khir/cfg_simplify.cc:379-384 | remaining blocks are numbered in order without gaps |
| CfgSimplify.RewriteBranch | khir/cfg_simplify.cc:231-260 | renumbers the targets; the "BB not terminated" error is raised exactly if the block does not end in a terminator |
| CfgSimplify.RewriteBlock | khir/cfg_simplify.cc:214-261 | neighbours are filtered and renamed, the branch is renumbered |
| CfgSimplify.OutputBlocks | khir/cfg_simplify.cc:386-392 | lists every remaining block once and renumbers every branch once, without raising an error |
| CfgSimplify.OutputImplements | khir/cfg_simplify.cc:370-394 | the output consists of the kept instructions of the chains, rewritten and renumbered |
| SimplifiedGraph.CFGSimplify | khir/cfg_simplify.cc:370-394 | for every function in SSA form there is a result exactly if merging and lookups end; it implements a plan covering every reachable block, with mirrored edges, branches that match the successor lists, no predecessor of the entry, and nothing left to merge |
| SimplifiedGraph.SimplifyAndRun | khir/cfg_simplify.cc:370-394 | whenever the pass has a result, it has the results, stores and traces of the original function |
| EndlessMerging.AcyclicCanBeSimplified | khir/cfg_simplify.cc:12-48 | functions without unreachable cycles are simplified |
| EndlessMerging.SelfLoop | khir/cfg_simplify.cc:287-349 | a concrete function, an entry that returns and an unreachable block that branches to itself, on which merging comes to read the first segment of an empty list |
| EndlessMerging.TwoSidedLoop | khir/cfg_simplify.cc:287-289 | a function with an unreachable cycle that is simplified |
| SelfPhis.UsedPhiNeverEnds | khir/cfg_simplify.cc:163-198 | a concrete function with an unreachable phi that stands for itself: the pass ends exactly if the phi is not used |
| FunctionBuilder.FunctionBuilder.GenerateBasicBlock | khir/program_builder.cc:171-181 | adds an empty block and keeps the invariant |
| FunctionBuilder.FunctionBuilder.SetCurrentBlock | khir/program_builder.cc:245-256 | leaving an unterminated block is an error, otherwise the block is switched |
| FunctionBuilder.FunctionBuilder.UpdateSuccessors | khir/program_builder.cc:96-120 | records the edges of a branch on both sides, once for each mention and at the end of the lists |
| FunctionBuilder.FunctionBuilder.Append | khir/program_builder.cc:122-148 | the instruction is added at the end of what the current block contains, and no other block changes; blocks stay disjoint contiguous ranges with at most one terminator, at their end; appending to a terminated block is an error and adds to no block |
| FunctionBuilder.FunctionBuilder.Build | khir/program_builder.cc:2491-2497 | every block consists of exactly the instructions that were appended successfully while it was current, in that order; a finished function has well-formed blocks and mirrored edges, and satisfies all graph conditions that the simplifier starts from exactly if nothing branches to its first block |
| PlanModel.RewriteEval | plan/planner.cc:49-66 | renumbered references compute the old value on rows that hold the old columns at the new places |
| PlanModel.EvalLocal | plan/planner.cc:37-47 | the value of an expression depends only on the columns it references |
| EarlyProjection.PruneRows | plan/planner.cc:626-630 | removing columns from a schema removes exactly these columns from the rows |
| EarlyProjection.CrossPicked | plan/planner.cc:651-673 | pruning the inputs of a join prunes its combinations and changes nothing else |
| EarlyProjection.EarlyProjectionPreserves | plan/planner.cc:604-737 | early projection preserves the rows of every well-formed plan on every database |
| EarlyProjection.EarlyProjectionIsTight | plan/planner.cc:604-737 | afterwards every reference is in bounds and every column of every child is read by its parent |
| ProjectionPass.NumberColumns | plan/planner.cc:613-624 | referenced columns get consecutive positions in order |
| ProjectionPass.RemoveUnreferenced | plan/planner.cc:626-630 | the backwards loop leaves exactly the referenced columns, in order |
| ProjectionPass.Project | plan/planner.cc:604-737 | the recursive pass computes early projection and gives up exactly on plans with unknown operators |
| ProjectionPass.ProjectJoin | plan/planner.cc:641-686 | the join case: all inputs are pruned first, then rewritten and projected |
| Pushdown.DecomposeHolds | plan/planner.cc:466-487 | the conjuncts hold together exactly if WHERE does |
| Pushdown.Split | plan/planner.cc:509-520 | every conjunct is a filter of one table or a join condition, none is lost |
| Pushdown.ConjoinHolds | plan/planner.cc:532-538 | the rebuilt conjunction of a table's filters holds exactly if all of them do |
| Pushdown.CrossPassing | plan/planner.cc:522-553 | filtering each table first gives the passing combinations of the cross product, in the same order |
| Pushdown.PushdownIsSound | plan/planner.cc:501-583 | filters per table, a join on the rest and flattened columns give the rows of the filtered cross product |
| SelectPlanner.SingleTableExactly | plan/planner.cc:513-519 | with one table the plan is right exactly if the dropped conjuncts hold, or no row of the table passes the others |
| SelectPlanner.ConstantConjunctIsDropped | plan/planner.cc:564-566 | a concrete query whose plan returns a row that WHERE rejects |
| SelectPlanner.FlattenedAt | plan/planner.cc:555-561 | where each table's column is in the joined row |
| SelectPlanner.QueryPlanIsCorrect | plan/planner.cc:501-602 | the planned query computes the aggregates over the combinations that satisfy WHERE, nulls if there are none |
| SelectPlanner.ProjectedQueryIsCorrect | plan/planner.cc:804-813 | planning followed by early projection still computes them, with all references in bounds |
| SelectPlanner.Distribute | plan/planner.cc:509-520 | the loop hands each conjunct to its table or to the join, in order |
| SelectPlanner.BuildFilter | plan/planner.cc:532-538 | the backwards loop builds the right-nested conjunction |
| SelectPlanner.FlattenColumns | plan/planner.cc:555-561 | the nested loop numbers all columns consecutively |
| SelectPlanner.PlanSelect | plan/planner.cc:501-602 | the planner's loops build the specified plan |
| PagedRows.RowNumberOf | runtime/aggregate_hash_table.cc:111-119 | page and offset of a row determine its number, and the row fits into its page |
| PagedRows.PositionsDiffer | runtime/aggregate_hash_table.cc:111-119 | different rows take different bytes |
| PagedRows.SizeIsCount | runtime/aggregate_hash_table.cc:121-135 | the size computed from the pages is the number of rows |
| PagedRows.NextPosition | compile/proxy/aggregate_hash_table.cc:297-307 | the next row goes behind the last one or to the start of a new page, where its number says |
| Probing.EntryRoundTrip | runtime/aggregate_hash_table.cc:46-57 | the fields lie in the stated bits of the word, and taking the word apart gives them back; an entry is empty exactly if its page is zero |
| Probing.EntryForFits | compile/proxy/aggregate_hash_table.cc:61-73 | the salt of every entry is the first 16 bits of the hash, and its fields fit their bits |
| Probing.InsertAt | compile/proxy/aggregate_hash_table.cc:293-311 | entering a row at the first empty slot keeps one entry for each row and no empty slot before it |
| Probing.NotPresent | compile/proxy/aggregate_hash_table.cc:225-229 | an empty slot during the search means that the key is not in the table |
| Probing.FreeSlot | compile/proxy/aggregate_hash_table.cc:188-201 | with fewer rows than slots there is an empty slot, so probing ends |
| AggregateHashTable.HomeIsMasked | compile/proxy/aggregate_hash_table.cc:203-212 | the search for a key starts at its masked hash |
| AggregateHashTable.PlaceRow | runtime/aggregate_hash_table.cc:73-83 | the probe loop ends and enters the row |
| AggregateHashTable.AggregateHashTable.constructor | runtime/aggregate_hash_table.cc:9-28 | the initial table is valid and empty, with a power of two of slots |
| AggregateHashTable.AggregateHashTable.AllocateNewPage | runtime/aggregate_hash_table.cc:30-44 | adds an empty page, doubling the page list if it is full |
| AggregateHashTable.AggregateHashTable.Resize | runtime/aggregate_hash_table.cc:59-91 | doubles the slots, enters every row again in storage order, and changes no row |
| AggregateHashTable.AggregateHashTable.Insert | compile/proxy/aggregate_hash_table.cc:293-311 | appends the new row with its initial aggregate and changes no other row |
| AggregateHashTable.AggregateHashTable.UpdateOrInsert | compile/proxy/aggregate_hash_table.cc:187-243 | updates the aggregate of the key's row, or appends a row if the key is new; before that the slots are doubled exactly if more than two thirds of them are taken |
| AggregateHashTable.AggregateHashTable.ForEach | compile/proxy/aggregate_hash_table.cc:245-291 | hands over the rows from the start of the first row's page to the last row, in order |
| AggregateHashTable.AggregateHashTable.NumTuples | runtime/aggregate_hash_table.cc:121-135 | returns the number of rows |
| AggregateHashTable.ReadRows | compile/proxy/aggregate_hash_table.cc:245-291 | the nested page loops visit exactly these rows, each once |
| AggregateHashTable.AggregateAll | compile/proxy/aggregate_hash_table.cc:187-291 | after any sequence of updates, reading the table gives one row for each key with the fold of its inputs |
| AggregateHashTable.ChunkIsExact | compile/proxy/aggregate_hash_table.cc:270-287 | a chunk is handed over exactly if and only if it starts at a page boundary |
| Pipelines.PipelineBuilder.CreatePipeline | execution/pipeline.cc:45-48 | adds a pipeline without dependencies and keeps the graph mirrored |
| Pipelines.PipelineBuilder.AddPredecessor | execution/pipeline.cc:18-21 | records the dependency on both sides and keeps the graph mirrored |
| Pipelines.PipelineBuilder.SetDriver | execution/pipeline.cc:13-16 | the driver is recorded and becomes a predecessor, and nothing else changes |
| TopologicalSort.TopSortVisit | execution/executable_query.cc:32-46 | finishes everything reachable, successors before the pipelines that lead to them, and leaves no other pipeline open |
| TopologicalSort.ExecutionOrder | execution/executable_query.cc:216-224 | for every acyclic graph the order is a permutation in which predecessors come first |
| TopologicalSort.LastHasNoSuccessors | execution/executable_query.cc:246-250 | the last pipeline has no successors, so the final error is never raised |
| QueryExecution.ChunksPartition | execution/executable_query.cc:137-143 | the chunks cover every input row exactly once, in order |
| QueryExecution.ChunksAreFull | execution/executable_query.cc:137-143 | every chunk but the last has 8192 rows |
| QueryExecution.ChunkArithmeticFits | execution/executable_query.cc:138-142 | the 32-bit sum in the chunk loop stays in range exactly for inputs up to 2^31 - 8192 rows |
| QueryExecution.RunChunks | execution/executable_query.cc:137-143 | the static loop hands out these chunks |
| QueryExecution.RunChunksAdaptive | execution/executable_query.cc:159-196 | timing two chunks and switching code hands out the same chunks |
| QueryExecution.CleanUpPredecessors | execution/executable_query.cc:81-95 | the use counts stay exact and a buffer is reset at the mention that makes its last reader done |
| RunOrder.EveryBufferIsResetOnce | execution/executable_query.cc:226-254 | every buffer with readers and the final one is reset exactly once, and no other |
| RunOrder.InputsAreReady | execution/executable_query.cc:216-244 | every call of a pipeline comes before every call of a pipeline that depends on it |
| RunOrder.NothingReadsAfterReset | execution/executable_query.cc:81-95 | no reader of a buffer works after the buffer has been reset |
| RunOrder.CompleteInRun | execution/executable_query.cc:61-116 | the calls of a pipeline in a run are one initialisation and then its body, once if it is not split, and otherwise on all rows of its driver, each once and in order, in full chunks |
| RunOrder.ResetAfterFilling | execution/executable_query.cc:81-95 | a buffer is reset after the pipeline that fills it has worked |
| RunOrder.Execute | execution/executable_query.cc:199-255 | a run makes exactly these calls for every pipeline, works on every pipeline before those that depend on it, and resets every buffer with readers and the final one once, after the pipeline and its readers have worked |
| ChunkedTable.ChunkedReadIsExact | compile/translators/group_by_aggregate_translator.cc:78-85 | reading an aggregate table through the scheduler's chunks hands over every row exactly once if and only if there is one chunk or the rows of a page divide the chunk size |
| ChunkedTable.ChunksHandOver | execution/executable_query.cc:137-143 | the chunks of the scheduler's loop hand over exactly what the iteration over the table gives, chunk by chunk |
| ChunkedTable.ScheduledReadIsExact | execution/executable_query.cc:137-143 | the same condition for the calls that a run of the scheduler makes for the pipeline that reads the table |
| ChunkedTable.RowsCanRepeat | compile/translators/group_by_aggregate_translator.cc:78-85 | with rows of 24 bytes every table of more than one chunk is handed over with repetitions |
| BucketIntersection.FastForwardBucket | runtime/column_index_bucket.cc:35-57 | binary search finds the first value of at least the bound, or reports none |
| BucketIntersection.Init | runtime/column_index_bucket.cc:67-73 | exactly the common values of at least the bound are ahead afterwards |
| BucketIntersection.PopulateOne | runtime/column_index_bucket.cc:96-103 | hands over the next values and leaves the rest |
| BucketIntersection.PopulateTwo | runtime/column_index_bucket.cc:105-124 | hands over the next common values of two buckets and leaves exactly the others |
| BucketIntersection.CheckCandidate | runtime/column_index_bucket.cc:152-173 | finds the candidate in all buckets, or skips only values that are not common |
| BucketIntersection.PopulateMany | runtime/column_index_bucket.cc:126-182 | hands over the first common values of the smallest list, strictly increasing, and loses none that was ahead |
| BucketIntersection.PopulateResult | runtime/column_index_bucket.cc:89-182 | a batch for any number of buckets |
| BucketIntersection.ReadAll | runtime/column_index_bucket.cc:67-124 | for one or two buckets the batches concatenate to exactly the intersection from the bound on, in order and once each |
| RepeatedBatches.RepeatsExactly | runtime/column_index_bucket.cc:126-182 | the next batch starts with the last value handed out if and only if the bucket scanned so far is no longer the first of those with the least left; otherwise it starts beyond that value |
| RepeatedBatches.ReadToEnd | runtime/column_index_bucket.cc:126-182 | reading three and more buckets call by call until a call returns nothing comes to an end; exactly the common values from the bound on have been handed out, in order, none more than twice; the calls are recorded with their states, and each value came once if and only if no recorded state has another bucket overtake the scanned one |
| ReadOnce.OnceExactly | runtime/column_index_bucket.cc:126-182 | every reading keeps its bucket if and only if no common value at the end of a full batch sees the first of the smallest buckets overtaken, a condition on the buckets, the bound and the batch size |
| ReadOnce.ReadIntersection | runtime/column_index_bucket.cc:67-182 | the values read are strictly increasing if and only if that condition holds |
| RepeatedBatches.CallDecreases | runtime/column_index_bucket.cc:132-178 | a full batch goes beyond the last value, or repeats it once from a bucket that is then the smallest, so repeated calls cannot go on forever |
| RepeatedBatches.ValueCanRepeat | runtime/column_index_bucket.cc:132-178 | for every batch size, concrete buckets for which the second batch starts with the last value of the first |
| ColumnIndex.LoadColumn | util/load.h:61-68 | appending cell by cell lists the rows of each key in ascending order; null cells are not indexed |
| ColumnIndex.RowsWithExact | util/load.h:61-68 | these rows are exactly those that hold the key |
| ColumnIndex.PosIsMasked | runtime/column_index.cc:73-77 | a key belongs to the chain at its masked hash |
| Masks.TableSize | runtime/column_index.cc:161-163 | the least power of two, from two on, of at least one and a half times the keys |
| Masks.MaskIsRemainder | runtime/column_index.cc:187-202 | for a power of two, masking with its predecessor is taking the remainder |
| ColumnIndex.WriteEntries | runtime/column_index.cc:206-221 | entries are written one behind the other: every byte belongs to the fields, one row number or the text of exactly one entry |
| ColumnIndex.LinkEntries | runtime/column_index.cc:223-230 | the backwards loop links the entries of a position in order, at growing offsets |
| ColumnIndex.Serialize | runtime/column_index.cc:150-245 | every position's chain holds its entries; the bytes from the heads to the end of the file belong each to the fields, one row number or the text of exactly one entry; and the final offset is the computed length |
| ColumnIndex.Get | runtime/column_index.cc:73-95 | the chain walk ends and returns the rows of the key, or none |
| ColumnIndex.IndexedRows | runtime/column_index.cc:73-245 | loading, writing and looking up a key gives exactly its rows in ascending order |
| EnumDictionary.WriteNames | runtime/enum.cc:84-103 | every name is found at its offset with its length and number, followed by a zero byte, and every byte of the file belongs to exactly one slot, name entry or text |
| EnumDictionary.EnterName | runtime/enum.cc:111-118 | the insertion loop ends and keeps every name reachable |
| EnumDictionary.Serialize | runtime/enum.cc:38-131 | the file holds all names and an empty slot, for every iteration order; slots, entries and texts do not overlap, fill the computed length, and a slot in use points to a name entry |
| EnumDictionary.GetKey | runtime/enum.cc:133-143 | returns the name of a number |
| EnumDictionary.GetValue | runtime/enum.cc:145-168 | the search ends and returns the number of the name, or -1 exactly if it is absent |
| EnumDictionary.LoadEnum | util/load.h:52-59 | strings are numbered densely in the order of their first appearance in the column |
| EnumDictionary.FirstSeenInOrder | util/load.h:52-59 | a string with a greater number first appears after one with a smaller number has appeared |
| EnumDictionary.EnumRoundTrip | runtime/enum.cc:38-168 | whatever the iteration order when the file is written, every string of a column gets the number it was loaded with, that number has the string as its name, and other strings get -1 |
| Dates.DateRoundTrip | runtime/date.cc:10-44 | splitting the number of a date gives the date back, for every Gregorian date from year 0 on |
| Dates.EveryDayHasADate | runtime/date.cc:29-44 | every day number from year 0 on splits into a valid date with that number |
| Dates.BuildDateIncreases | runtime/date.cc:10-25 | day numbers increase strictly in calendar order |
| Dates.NextDayIsNext | runtime/date.cc:10-25 | consecutive days have consecutive numbers |
| Dates.FitsIn32 | runtime/date.cc:10-44 | no intermediate result leaves 32 bits for any date whose number fits |
| Dates.LastDateThatFits | runtime/date.cc:10-25 | the number fits exactly for the dates up to 3 June 5874898 |
| UnionFind.Find | util/union_find.cc:8-12 | returns the representative and changes no element's representative while compressing paths |
| UnionFind.Union | util/union_find.cc:14-23 | merges exactly the two sets |

## Left out

- UctAgents.ExecutePermutableSkinnerJoin: asks for two units of budget for each table; SmallBudgets shows for every smaller positive budget a join that ends too early or never ends.
- SkinnerJoin.JoinEnvironment.Execute: starts from a budget of one; for zero and less SmallBudgets.DryEpisode says on the function that specifies the code what an episode without predicates reports, and its reward, a division by zero or a negative share, is not modelled.
- SkinnerJoin.JoinEnvironment.RunEpisode: the same.
- UctAgents.UctJoinAgent.Sample: the same; random choices and shuffles are arbitrary, so no statement depends on their distribution.
- UctAgents.UctJoinAgent.Act: the same.
- JoinEngine.Engine.TableFunction: an index lookup gives the rows for which the flagged equality predicates hold; the index structures themselves are the subject of the bucket and column index models, and whether a row comes twice from more than two buckets is left open here.
- PredicateFlags.FlagsSuit: a predicate about a single table of the join is left out; the planner makes it a filter below the join, see JoinFlags.PlannedJoinRuns.
- Rewards.Reward: doubles are exact reals, and the square root and logarithm of the exploration term are an arbitrary non-negative function.
- JoinStates.JoinState.UpdateTree: the tree of nodes is a map from paths to rows, so sharing of nodes between orders is sharing of prefixes.
- The recompiling variant of the join environment, which uses the same join state, would repeat the same claims.
- CfgMerge.MergeAll: stops where a block is to be merged with itself, because what follows is not defined.
- Lookups.ResolveValue: counts its turns to notice that it goes on forever; the original has no counter.
- SimplifiedGraph.CFGSimplify: functions are in SSA form, which the pass does not check.
- CfgRewrite.RewriteInstr: opcodes are grouped by the operands that the pass rewrites; callees of indirect calls are never phis, because the pass does not rewrite them.
- CfgSimplify.RewriteBranch: block numbers are unbounded, while a branch target has 12 bits in the instruction word.
- KhirSemantics.ExecConcat: phis take their values on entry to a block, as in the LLVM back end; the register moves of the assembler back end are not modelled.
- FunctionBuilder.FunctionBuilder.SetCurrentBlock: one function is built at a time; switching between functions could leave a block open.
- Pushdown.PushdownIsSound: rows are produced in the order of the nested loops; the adaptive join produces the same rows in another order.
- SelectPlanner.PlanSelect: parsing, catalog lookups, LIKE patterns and the conversion of filtered scans into index scans are not modelled, and WHERE is present.
- ProjectionPass.Project: trees are values, so the pass returns the new tree instead of editing the old one.
- AggregateHashTable.AggregateHashTable.UpdateOrInsert: capacity and page numbers are unbounded instead of 32 bits wide.
- AggregateHashTable.AggregateHashTable.Insert: a page maps byte offsets to whole rows; the bytes of a row are not modelled.
- Probing.EntryRoundTrip: shifts and bitwise or of disjoint fields are written as multiplication and addition.
- The filtered variant of the bucket intersection is left out.
- ColumnIndex.Serialize: the file is a table of entries by byte offset; which bytes an entry takes is stated, but not how its fields are encoded in them.
- ColumnIndex.Get: floating-point keys are left out, and a hash is any function of the key.
- EnumDictionary.LoadEnum: columns without nulls; a null cell, an empty string, is not entered into the dictionary.
- EnumDictionary.Serialize: opening, mapping and closing files is left out here and in the column index.
- RunOrder.Execute: the size of a driver is fixed when a pipeline starts; measuring time and choosing a back end only decide which code runs the chunks.
- Merge sort, the memory-resident column index, constant folding, register allocation, the back ends, the parser, loaders' main programs, the catalog and the benchmarks would add easy members or depend on foreign code.
