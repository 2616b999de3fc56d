# pystsup allocation engine in Dafny

This project models the allocation engine of `pystsup`, a multi-objective genetic
algorithm that assigns students to supervisors. It covers:

- the bipartite allocation graph (`BipartiteGraph`). Its two indices are
  supervisor → students and student → supervisors, and `addEdge`/`removeEdge` keep them
  in step;
- the solution predicates: Pareto dominance, the crowded comparison, the keyword-path
  intersection, `isValid`, `getTransferable` and the rank weights;
- the graph operators:
  - the constraint propagation `simplify` and its 4-cycle and random settling steps;
  - the structure-preserving `crossover`, the slot expansion of `hopkroft`, `crossover10`;
  - the quota repair `fixSolution` and the `uniform` and `kPoint` crossovers built on it;
  - `mutate`, tournament selection and roulette-wheel selection;
- the NSGA-II bookkeeping: the fast non-dominated sort, crowding distances,
  `filterPopulation`, the front truncation and the stagnation counter of `start`, and
  `makeNewPopulation`;
- two utilities: the random integer `partition`, and the ACM tree parser `parseFile`
  with its parent walk `getPath`.

Modelling conventions:

- **Graphs.**
  - A graph is the value `GraphModel.Graph(sups, stus)`: two maps from keys to lists.
    The object is the class `Bipartite.BipartiteGraph`, whose fields `edges` and `edgesStu`
    the methods update in place. Each method is specified against the value function of
    `GraphModel`/`GraphOps`.
  - `Consistent` is the two-way invariant between the indices. `Allocation` is a
    complete, valid assignment: every student has exactly one supervisor, and every
    supervisor has between 1 and its quota students.
  - A merged graph, in which a student has up to two candidates, is a `Consistent` graph
    with the weaker bound (`Simplify.Merged`, `Bipartite.Candidates`).
  - Counting arguments go through edge sets (`Counting`). `Counting.Total` sums a quota
    table, and `Bipartite.Capacity` sums it with a quota below 1 counted as 1.
- **Python behaviour.**
  - Python exceptions are `Outcomes.PyError` values inside a `Result`.
  - `None` is `Option`. Crowding distances are finite reals or an explicit `Infinity`.
- **Randomness and iteration order.**
  - Every random draw is a parameter: index and real-valued draw oracles, coins, or
    `:|` choices. Every property is proved for all draws.
  - Dictionary iteration order is either an arbitrary choice or an enumeration
    parameter whose `requires` says it lists the keys.

## Model

| member | source | states |
|---|---|---|
| GraphModel.RemoveFirst | pystsup/data/bipartiteGraph.py:140-141 | `list.remove` shortens the list by one and removes exactly one occurrence of the value (multiset minus it) |
| GraphModel.AddEdge | pystsup/data/bipartiteGraph.py:102-127 | after `addEdge` both keys exist and the pair is an edge |
| GraphModel.RemoveEdge | pystsup/data/bipartiteGraph.py:130-144 | `removeEdge` keeps all keys; it succeeds exactly when the pair is an edge, and then both the student's and the supervisor's lists shrink by one |
| GraphModel.IsEdgeIsMember | pystsup/data/bipartiteGraph.py:147-164 | on a consistent graph `isEdge` holds exactly for the members of the edge set |
| GraphModel.IsEdge | pystsup/data/bipartiteGraph.py:147-164 | `isEdge` holds only for an edge in the edge set that the student index also records (the converse, on consistent graphs, is `IsEdgeIsMember`) |
| GraphModel.AddEdgeConsistent | pystsup/data/bipartiteGraph.py:114-126 | `addEdge` preserves the two-way consistency of the indices |
| GraphModel.AddEdgeEdges | pystsup/data/bipartiteGraph.py:114-126 | the edge set after `addEdge` is the old one plus the pair |
| GraphModel.AddEdgeDegrees | pystsup/data/bipartiteGraph.py:114-126 | re-adding an existing edge leaves the degree unchanged; a new edge raises only that supervisor's degree by one and appends only to that student's list |
| GraphModel.RemoveEdgeConsistent | pystsup/data/bipartiteGraph.py:130-144 | `removeEdge` reports KeyError for a missing supervisor, ValueError for a missing edge, and leaves the graph unchanged then; consistency is preserved in every case |
| GraphModel.RemoveEdgeEdges | pystsup/data/bipartiteGraph.py:130-144 | the edge set after `removeEdge` is the old one minus the pair |
| GraphModel.RemoveEdgeDegrees | pystsup/data/bipartiteGraph.py:130-144 | only the supervisor's degree drops, by one when the edge existed; other students' lists are untouched |
| GraphModel.AddThenRemove | pystsup/data/bipartiteGraph.py:102-144 | removing a freshly added edge gives back exactly the original graph |
| GraphModel.AddEdgeIdempotent | pystsup/data/bipartiteGraph.py:114-126 | adding the same edge twice is the same as adding it once |
| GraphModel.RemoveFirstNoDup | pystsup/data/bipartiteGraph.py:140-141 | removing from a duplicate-free list leaves it duplicate-free, with exactly the other elements |
| GraphModel.EdgesFromStudentIndex | pystsup/data/bipartiteGraph.py:91-99 | on a consistent graph the student index alone determines the edge set |
| GraphModel.SameStudentIndexSameEdges | pystsup/data/bipartiteGraph.py:91-99 | `__eq__` compares only the student index, and on consistent graphs equal student indices mean equal edge sets |
| Bipartite.BipartiteGraph.Equal | pystsup/data/bipartiteGraph.py:91-99 | `__eq__` compares the student indices; equal consistent graphs have the same edge set |
| GraphOps.Transfer | pystsup/data/bipartiteGraph.py:316-339 | `transferStudent` raises KeyError exactly when the source is missing, or when it has two or more students and the target is missing from the graph or the quotas; when the guard (≥2 students, room below quota, edge present) fails nothing changes |
| GraphOps.TransferMoves | pystsup/data/bipartiteGraph.py:334-339 | an allowed transfer between different supervisors moves exactly that one edge: source degree −1, target degree +1, everything else unchanged |
| GraphOps.TransferChecked | pystsup/data/bipartiteGraph.py:316-339 | the corrected transfer never changes a graph when source and target coincide |
| GraphOps.TransferToSelfDropsStudent | pystsup/data/bipartiteGraph.py:334-339 | as written, a transfer from A to A of one of A's two students leaves that student with no supervisor |
| GraphOps.TransferCheckedKeepsAllocation | pystsup/data/bipartiteGraph.py:316-339 | the corrected transfer maps every allocation to an allocation, for any arguments |
| GraphOps.Transfer1 | pystsup/data/bipartiteGraph.py:343-364 | `transferStudent1` (add then remove) succeeds exactly when the source edge exists after the add |
| GraphOps.Transfer1KeepsAllocation | pystsup/data/bipartiteGraph.py:343-364 | an unguarded transfer from a supervisor with ≥2 students to another below quota succeeds and keeps an allocation |
| GraphOps.Transfer1Structure | pystsup/data/bipartiteGraph.py:343-364 | the transfer changes the structure only at source (−1) and target (+1) |
| GraphOps.Transfer1Consistent | pystsup/data/bipartiteGraph.py:343-364 | `transferStudent1` preserves consistency |
| GraphOps.Swap | pystsup/data/bipartiteGraph.py:367-387 | a completed swap leaves the crossed edges in the graph |
| GraphOps.SwapKeepsAllocation | pystsup/data/bipartiteGraph.py:384-387 | swapping students of two different supervisors of an allocation succeeds, keeps an allocation and exchanges the two edges |
| GraphOps.SwapStructure | pystsup/data/bipartiteGraph.py:384-387 | a swap leaves every supervisor's degree unchanged |
| GraphOps.SwapConsistent | pystsup/data/bipartiteGraph.py:367-387 | `swapStudents` preserves consistency |
| GraphOps.SwapEdges | pystsup/data/bipartiteGraph.py:384-387 | a swap replaces exactly the two old edges by the two crossed edges |
| GraphOps.RemoveExceptFrom | pystsup/data/bipartiteGraph.py:457-469 | `removeExcept` keeps all keys of both indices |
| GraphOps.RemoveExceptSpec | pystsup/data/bipartiteGraph.py:457-469 | for a student with at most two candidates, `removeExcept` leaves `sup` as the student's only candidate and removes only the other candidate's edge |
| GraphOps.RemoveExceptConsistent | pystsup/data/bipartiteGraph.py:457-469 | `removeExcept` preserves consistency on such a student |
| GraphOps.RemoveExceptEdges | pystsup/data/bipartiteGraph.py:457-469 | the edge set afterwards is the old one without the student's edges to other supervisors |
| GraphOps.RemoveExceptSkipsWithThree | pystsup/data/bipartiteGraph.py:461-469 | removing while iterating over the live list skips an element: with candidates A, B, C and keep C, the list ends as [B, C] |
| Bipartite.FirstOther | pystsup/data/bipartiteGraph.py:439-455 | `getRemainingSup` returns the first candidate other than `sup`, and None exactly when all candidates equal `sup` |
| Bipartite.BipartiteGraph.constructor | pystsup/data/bipartiteGraph.py:23-47 | the object holds exactly the two given indices |
| Bipartite.BipartiteGraph.AddEdge | pystsup/data/bipartiteGraph.py:102-127 | the in-place `addEdge` produces the graph value of `GraphModel.AddEdge` |
| Bipartite.BipartiteGraph.RemoveEdge | pystsup/data/bipartiteGraph.py:130-144 | the in-place `removeEdge` produces the graph and status of `GraphModel.RemoveEdge` |
| Bipartite.BipartiteGraph.TransferStudent | pystsup/data/bipartiteGraph.py:316-339 | the in-place guarded transfer matches `GraphOps.Transfer` |
| Bipartite.BipartiteGraph.TransferStudent1 | pystsup/data/bipartiteGraph.py:343-364 | the in-place unguarded transfer matches `GraphOps.Transfer1` |
| Bipartite.BipartiteGraph.SwapStudents | pystsup/data/bipartiteGraph.py:367-387 | the in-place swap matches `GraphOps.Swap` |
| Bipartite.BipartiteGraph.GetStructure | pystsup/data/bipartiteGraph.py:390-405 | the structure maps every supervisor to its degree |
| Bipartite.BipartiteGraph.Merge | pystsup/data/bipartiteGraph.py:407-436 | `merge` raises KeyError exactly when the other graph lacks one of this graph's supervisors or an added student is unknown; otherwise it returns a fresh graph with this graph's keys and lists extended at their ends, and the union edge set |
| Bipartite.MergeGraphs | pystsup/data/bipartiteGraph.py:420-436 | the merge loops on values: same error condition and same merged result |
| Bipartite.MergeRound | pystsup/data/bipartiteGraph.py:426-434 | one supervisor of the outer loop: KeyError (and then the whole merge fails) when the second graph lacks it or a student to add has no key; otherwise the merge invariant extends to this supervisor and consistency is kept |
| Bipartite.MergeSupervisor | pystsup/data/bipartiteGraph.py:426-434 | one supervisor's missing students are appended, failing exactly when one is unknown, and consistency is kept |
| Bipartite.MergeOfAllocations | pystsup/data/bipartiteGraph.py:407-436 | merging two allocations over the same tables succeeds, gives each student one or two candidates, and each candidate is one parent's supervisor |
| Bipartite.MergedParent | pystsup/data/bipartiteGraph.py:420-436 | a candidate in the merge is the student's supervisor in one of the two parents |
| Bipartite.BipartiteGraph.GetRemainingSup | pystsup/data/bipartiteGraph.py:439-455 | the loop returns the first other candidate (`FirstOther`) |
| Bipartite.BipartiteGraph.RemoveExcept | pystsup/data/bipartiteGraph.py:457-469 | raises KeyError and changes nothing for an unknown student; otherwise it matches `GraphOps.RemoveExceptFrom` |
| Bipartite.BipartiteGraph.GetRemainingStu | pystsup/data/bipartiteGraph.py:488-512 | a student is returned exactly when it is linked to `sup` and not in the kept list |
| Bipartite.BipartiteGraph.GetAvailableEdges | pystsup/data/bipartiteGraph.py:553-563 | a student is available exactly when it is linked to `sup` and not locked |
| Bipartite.BipartiteGraph.Copy | pystsup/data/bipartiteGraph.py:578-584 | `copy` returns a fresh object with the same graph |
| Bipartite.CanLockKeepsOtherFeasible | pystsup/data/bipartiteGraph.py:515-550 | for an unlocked student with two candidates, `canLock` holds exactly when the other candidate's remaining need is at most its unlocked students other than this one |
| Bipartite.BipartiteGraph.CanLock | pystsup/data/bipartiteGraph.py:515-550 | a student with a single candidate can always be locked; the requires `CanLockDefined` excludes the KeyError of lines 542-547 (no other candidate, or one missing from the graph, the structure or the counts), and `Locking.CanLockReady` discharges it at every call |
| Bipartite.BipartiteGraph.CreateRandomGraph | pystsup/data/bipartiteGraph.py:250-312 | succeeds exactly when there are at least as many students as supervisors and no more than the capacity (the sum of the quotas, counting a quota below 1 as 1); otherwise IndexError; on success the fresh graph is consistent over exactly the given keys, every student has one supervisor, and every supervisor has at least one student and stays within quota (a quota below 1 still gets its first student) |
| Bipartite.RandomGraph | pystsup/data/bipartiteGraph.py:250-312 | the same for the two loops on values, with the same exact success condition |
| Bipartite.FirstRound | pystsup/data/bipartiteGraph.py:273-289 | the first loop completes exactly when there are at least as many students as supervisors, giving each supervisor one student |
| Bipartite.FirstLoopRunsOut | pystsup/data/bipartiteGraph.py:280-282 | running out of students in the first loop implies more supervisors than students |
| Bipartite.FillRound | pystsup/data/bipartiteGraph.py:294-309 | the second loop fails (IndexError) exactly when the remaining students exceed the room left at the supervisors still below quota; on success every remaining student is placed within quota |
| Bipartite.FirstLoopRoom | pystsup/data/bipartiteGraph.py:273-289 | after the first loop, students left plus capacity equal all students plus the room left below quota |
| Bipartite.RoomStep | pystsup/data/bipartiteGraph.py:296-309 | placing a student uses exactly one unit of room, and a supervisor that becomes full leaves the drawable set with none left |
| Bipartite.AllocatedFits | pystsup/data/bipartiteGraph.py:250-312 | a graph `createRandomGraph` can build has at least one student per supervisor and at most the capacity |
| Counting.CountCompare | pystsup/evolutionary/crossover/crossover.py:290-293 | per-supervisor edge counts that are pointwise at most another's sum to at most its total, with equal totals only when every count is equal |
| Counting.DegreeCount | pystsup/data/bipartiteGraph.py:223 | a supervisor with a duplicate-free list has as many edges as its degree |
| Counting.OneEachCount | pystsup/data/solution.py:472-489 | when every student has one supervisor, the edge set has one edge per student |
| Counting.AllocationBounds | pystsup/evolutionary/crossover/crossover.py:386-446 | a complete allocation has at least as many students as supervisors and no more than the total quota |
| Counting.TotalBelowEdges | pystsup/evolutionary/crossover/crossover.py:433-446 | degrees at least the quotas everywhere add up to at least the total quota, and more when one supervisor is over quota |
| Counting.EdgesBelowTotal | pystsup/evolutionary/crossover/crossover.py:386-446 | degrees within quota everywhere add up to at most the total quota |
| Counting.OneAtEach | pystsup/evolutionary/crossover/crossover.py:409-415 | at least (at most) one student at every supervisor means at least (at most) as many students as supervisors |
| Solutions.DominatesIsPareto | pystsup/data/solution.py:99-134 | `dominates` is Pareto dominance (both objectives at least as large, one strictly), and is irreflexive, asymmetric and transitive |
| Solutions.Dominates | pystsup/data/solution.py:99-134 | the three-way `or` of `dominates` is Pareto dominance: at least as good in both objectives and strictly better in one |
| Solutions.CrowdedLessIsStrictOrder | pystsup/data/solution.py:136-159 | `__lt__` (lower rank, then larger crowding distance) is a strict weak order |
| Solutions.CrowdedLess | pystsup/data/solution.py:136-159 | `__lt__` decides by rank first (lower wins) and breaks ties by the larger crowding distance |
| Solutions.FartherIsStrictWeakOrder | pystsup/data/solution.py:151-159 | comparison of crowding distances with infinity is a strict weak order |
| Solutions.AddGap | pystsup/evolutionary/geneticAlgorithm.py:266-273 | adding a gap to an infinite distance keeps it infinite, and a positive gap makes a finite distance farther |
| Solutions.Intersection | pystsup/data/solution.py:218-244 | `_intersection` returns a count within both lengths such that the last `count` entries agree and every longer common-length suffix differs |
| Solutions.LongerSuffixesDiffer | pystsup/data/solution.py:232-244 | once two suffixes differ, every longer suffix differs too, so the count is the longest common suffix |
| Solutions.CalcRankWeights | pystsup/data/solution.py:192-215 | ZeroDivisionError exactly when n > 0 and the power sum is 0; otherwise the keys are 1..n and weight i is c^(i−1) divided by the power sum |
| Solutions.WeightsSumToOne | pystsup/data/solution.py:206-215 | the weights sum to 1 |
| Solutions.UniformWeights | pystsup/data/solution.py:206-215 | with c = 1 every weight is 1/n |
| Solutions.PositiveWeights | pystsup/data/solution.py:206-215 | with c > 0 the power sum is positive and consecutive weights differ by the factor c |
| Solutions.IsValid | pystsup/data/solution.py:448-489 | `isValid` returns true exactly when the counts match the tables, each supervisor is within 1..quota, and every listed student is linked back with degree 1; KeyError only when a lookup is undefined |
| Solutions.IsValidAcceptsUnallocatedStudent | pystsup/data/solution.py:472-489 | as written, a graph with a student whose list is empty passes `isValid` but is not an allocation |
| Solutions.IsValidStrict | pystsup/data/solution.py:448-489 | the corrected check, which also walks the student index, returns true exactly for `Strict` graphs |
| Solutions.StrictIsAllocation | pystsup/data/solution.py:469-489 | on a consistent graph the corrected check accepts exactly the complete allocations |
| Solutions.GetTransferable | pystsup/data/solution.py:492-525 | succeeds exactly when every supervisor has a quota; it returns the supervisors with degree > 1 and those with degree below quota |
| Solutions.TransferableIsGuard | pystsup/data/solution.py:512-525 | those two sets are exactly the guard of `transferStudent` on an allocation |
| Sorting.SortBy | pystsup/evolutionary/geneticAlgorithm.py:250-258 | `sorted` by a strict weak order returns a duplicate-free permutation, sorted and stable |
| Sorting.InsertSorted | pystsup/evolutionary/geneticAlgorithm.py:250-258 | inserting after the last non-greater element keeps a list sorted |
| Sorting.InsertStable | pystsup/evolutionary/geneticAlgorithm.py:250-258 | that insertion keeps equal elements in their original order |
| Simplify.Pairs | pystsup/evolutionary/crossover/crossover.py:60-66 | the kept pairs of a supervisor are its students in order, each paired with it |
| Simplify.Simplify | pystsup/evolutionary/crossover/crossover.py:22-74 | `simplify` raises only KeyError, and never when all keys are present; at the end the work list is empty, the graph has only lost edges, each supervisor's structure has dropped by exactly its kept pairs, each kept pair was an edge of the input and is removed, and every unsettled node is one with nothing to propagate |
| Simplify.Visit | pystsup/evolutionary/crossover/crossover.py:35-72 | one pop of the work list keeps the loop invariant and settles the node or leaves it alone |
| Simplify.StartPropagated | pystsup/evolutionary/crossover/crossover.py:31-33 | starting from every node, nothing is left unqueued |
| Simplify.StepNode | pystsup/evolutionary/crossover/crossover.py:35-72 | one node step raises only KeyError, and not when the keys are present; it advances the state |
| Simplify.StudentStep | pystsup/evolutionary/crossover/crossover.py:42-52 | a student with a single candidate is kept with it: the pair joins `to_keep`, the supervisor's structure drops by one, and the edge is gone |
| Simplify.SupervisorStep | pystsup/evolutionary/crossover/crossover.py:53-71 | KeyError exactly without a structure entry; with structure 0 the supervisor loses all candidates; with exactly as many candidates as its positive structure it keeps them all and its structure becomes 0 |
| Simplify.KeepBranch | pystsup/evolutionary/crossover/crossover.py:60-71 | keeping every candidate of a supervisor whose structure equals its candidate count appends exactly its pairs to the kept list, leaves it without edges, settles it with structure 0, and is one valid step of the simplification that keeps every undecided node accounted for |
| Simplify.DropAll | pystsup/evolutionary/crossover/crossover.py:55-59 | the structure-0 branch removes every candidate edge and queues exactly those students |
| Simplify.KeepAll | pystsup/evolutionary/crossover/crossover.py:60-66 | the keep-all branch keeps every candidate, in order |
| Simplify.KeepOne | pystsup/evolutionary/crossover/crossover.py:60-66 | keeping one candidate (`removeExcept` then `removeEdge`) leaves its student without edges |
| Simplify.Is4CycleMeans | pystsup/evolutionary/crossover/crossover.py:76-85 | `is_4_cycle` fails exactly for a missing student, and says yes exactly when the student has two candidates that share another student |
| Simplify.Is4Cycle | pystsup/evolutionary/crossover/crossover.py:76-85 | `is_4_cycle` can only raise KeyError, and says yes only for a student with exactly two candidates |
| Simplify.Solve4Cycle | pystsup/evolutionary/crossover/crossover.py:87-149 | errors exactly for a missing student, fewer than two candidates, or a chosen candidate without structure, and the graph is unchanged then; otherwise the coin's candidate is kept with structure −1, both candidate edges go, the student is settled and both candidates are queued |
| Simplify.RandomAllocation | pystsup/evolutionary/crossover/crossover.py:151-180 | the same settling step, which also queues the chosen supervisor's students; its error cases give KeyError or IndexError as the source order dictates |
| Simplify.UnlinkFacts | pystsup/evolutionary/crossover/crossover.py:101-106 | removing both candidate edges keeps the graph merged and leaves the student with no edge |
| Slots.Labels | pystsup/evolutionary/crossover/crossover.py:194-196 | the student at position i gets label i, and labels are injective |
| Slots.Expand | pystsup/evolutionary/crossover/crossover.py:198-204 | KeyError exactly when a supervisor lacks a structure entry; otherwise each supervisor gets max(0, structure) slots, numbered without gaps, each linked to exactly its supervisor's candidates and mapped back to it |
| Slots.OpenSlots | pystsup/evolutionary/crossover/crossover.py:199-204 | one supervisor's `range(cardinality)` loop adds exactly that many slots for it and none for others |
| Slots.Connect | pystsup/evolutionary/crossover/crossover.py:202-204 | a slot gets an entry only when the supervisor has a student, holding exactly their labels |
| Repair.FixSolution | pystsup/evolutionary/crossover/crossover.py:386-446 | `fixSolution` keeps the student set, one supervisor per student and known supervisors; only IndexError can be raised, and never when there are at least as many students as supervisors and no more than the total quota; success yields an allocation; an allocation is left unchanged |
| Repair.FixSetup | pystsup/evolutionary/crossover/crossover.py:391-407 | the set-up finds the supervisors with no student, the spare students and the overfull supervisors |
| Repair.GiveToNeedy | pystsup/evolutionary/crossover/crossover.py:409-431 | the first loop gives every empty supervisor one student, keeping the shape; it cannot run out of givers when there are at least as many students as supervisors; while a supervisor is overfull, `can_get` stays exact; with nothing needed nothing changes |
| Repair.GiveRound | pystsup/evolutionary/crossover/crossover.py:409-431 | one round of the first loop serves one needy supervisor, keeps the bookkeeping, and finds a giver whenever students are at least as many as supervisors |
| Repair.GiverExists | pystsup/evolutionary/crossover/crossover.py:411-415 | with a supervisor in need and at least as many students as supervisors, some supervisor can give |
| Repair.GiveOne | pystsup/evolutionary/crossover/crossover.py:418-431 | one move from a giver (an overfull supervisor when there is one) to a needy supervisor updates all four bookkeeping maps |
| Repair.DrainOverfull | pystsup/evolutionary/crossover/crossover.py:433-446 | the second loop drains every overfull supervisor to its quota, and cannot run out of takers when the students fit the total quota; with none overfull it changes nothing |
| Repair.DrainRound | pystsup/evolutionary/crossover/crossover.py:433-446 | one round of the second loop lowers an overfull supervisor by one, keeps `can_get` exact, and finds a taker whenever the students fit the total quota |
| Repair.TakerExists | pystsup/evolutionary/crossover/crossover.py:433-435 | with a supervisor over quota, `can_get` exact and the students within the total quota, some supervisor can take a student |
| Repair.ExactStep | pystsup/evolutionary/crossover/crossover.py:418-446 | a move out of an overfull supervisor keeps `can_get` exactly the supervisors below quota, with their room |
| Repair.DrainOne | pystsup/evolutionary/crossover/crossover.py:437-446 | one move from an overfull supervisor to one below quota updates both maps |
| Repair.NothingToFix | pystsup/evolutionary/crossover/crossover.py:391-407 | an allocation has no needy and no overfull supervisor |
| Repair.NeedStep | pystsup/evolutionary/crossover/crossover.py:418-431 | a move into a needy supervisor keeps the shape and the bookkeeping invariants |
| Repair.GiverHasTwo | pystsup/evolutionary/crossover/crossover.py:420-424 | the chosen giver has at least two students |
| Repair.ReduceStep | pystsup/evolutionary/crossover/crossover.py:437-446 | a draining move keeps the shape and the invariants |
| Repair.DrainPair | pystsup/evolutionary/crossover/crossover.py:437-446 | the overfull and the receiving supervisor differ, and the overfull one has at least two students |
| Repair.AllocationAtEnd | pystsup/evolutionary/crossover/crossover.py:433-446 | with no needy and no overfull supervisor left, the graph is an allocation |
| Recombination.BuildGraph | pystsup/evolutionary/crossover/crossover.py:460-465 | the child graph built by `addEdge` pairs the i-th student with the i-th chosen supervisor |
| Recombination.SameStudentsAllocation | pystsup/evolutionary/crossover/crossover.py:386-446 | a consistent graph with an allocation's student index and no empty supervisor is itself an allocation |
| Recombination.Repaired | pystsup/evolutionary/crossover/crossover.py:386-446 | repair of a child of two complete allocations always succeeds and gives an allocation; a child that is already an allocation, or that has the first parent's student index, comes back unchanged |
| Recombination.PicksFromParents | pystsup/evolutionary/crossover/crossover.py:460-465 | each chosen supervisor is one of the parents' supervisors for that student; with equal parents the child is the parent |
| Recombination.UniformLoop | pystsup/evolutionary/crossover/crossover.py:460-465 | the loop builds a fresh graph whose i-th student gets the parent its i-th draw picks |
| Recombination.UniformChild | pystsup/evolutionary/crossover/crossover.py:449-465 | before repair, each student's only supervisor is its picked parent's, and equal parents give the parent's index |
| Recombination.Uniform | pystsup/evolutionary/crossover/crossover.py:449-468 | `uniform` picks each student's supervisor from one parent by its draw, always succeeds with an allocation, leaves a child that is already an allocation as it is, and returns the parent when both parents agree |
| Recombination.Bounds | pystsup/evolutionary/crossover/crossover.py:501-513 | the segment bounds are 0, the first k−1 cut points and n, in order |
| Recombination.Spliced | pystsup/evolutionary/crossover/crossover.py:518-534 | the spliced vector is as long as the span of the bounds |
| Recombination.SplicedUpTo | pystsup/evolutionary/crossover/crossover.py:529-534 | the first m segments together are as long as the span from the first bound to bound m |
| Recombination.SplicedAt | pystsup/evolutionary/crossover/crossover.py:518-534 | position i of segment j comes from the parent that segment's draw picks |
| Recombination.Vector | pystsup/evolutionary/crossover/crossover.py:491-496 | each parent becomes the vector of its students' supervisors in key order |
| Recombination.Segments | pystsup/evolutionary/crossover/crossover.py:501-513 | the segments are the slices between consecutive bounds |
| Recombination.KPoint | pystsup/evolutionary/crossover/crossover.py:470-594 | ValueError exactly when k < 0 or k > n − 1, and success otherwise; segment j of the child copies its drawn parent; k = 0 copies one parent whole; success yields an allocation; equal parents give the parent |
| Recombination.KPointChild | pystsup/evolutionary/crossover/crossover.py:518-539 | the child before repair takes each segment from its drawn parent |
| Recombination.SplicedGraph | pystsup/evolutionary/crossover/crossover.py:537-539 | the graph built from the spliced vector has one supervisor per student, as drawn |
| Recombination.SegmentConsequences | pystsup/evolutionary/crossover/crossover.py:501-539 | a single segment copies one parent, and equal parents give the parent |
| Recombination.Splice | pystsup/evolutionary/crossover/crossover.py:518-534 | the splicing loop builds the spliced vector |
| Recombination.SplicedChild | pystsup/evolutionary/crossover/crossover.py:537-539 | the spliced child has every student and only known supervisors |
| Locking.DropRemaining | pystsup/evolutionary/crossover/crossover.py:311-316 | once a supervisor is full, exactly its unkept candidate edges are removed, and consistency is kept |
| Locking.Lock | pystsup/evolutionary/crossover/crossover.py:305-316 | locking one edge adds it to the child, locks the student and raises the count, and keeps the locking invariant |
| Locking.VisitSingle | pystsup/evolutionary/crossover/crossover.py:300-316 | a single-candidate student is locked to its supervisor; others are skipped |
| Locking.LockSingles | pystsup/evolutionary/crossover/crossover.py:298-316 | one supervisor's pass locks every student it alone can take |
| Locking.SinglesRound | pystsup/evolutionary/crossover/crossover.py:296-316 | a round only grows the locks; a round that locks nothing changes nothing and leaves no single-candidate student unlocked |
| Locking.LockAllSingles | pystsup/evolutionary/crossover/crossover.py:296-316 | the first loop ends with every single-candidate student locked and the invariant kept |
| Locking.CanLockReady | pystsup/evolutionary/crossover/crossover.py:337-348 | `canLock` is defined on every candidate the second loop tries |
| Locking.CanLockSpare | pystsup/evolutionary/crossover/crossover.py:337-348 | when `canLock` allows it, the other candidate keeps enough unlocked students |
| Locking.ShortHasCandidate | pystsup/evolutionary/crossover/crossover.py:330-336 | a supervisor short of its target still has a candidate |
| Locking.VisitRandom | pystsup/evolutionary/crossover/crossover.py:326-359 | one random choice locks a candidate of the supervisor or changes nothing |
| Locking.RandomRound | pystsup/evolutionary/crossover/crossover.py:321-360 | a random round keeps the invariant and only grows the locks |
| Locking.LockRounds | pystsup/evolutionary/crossover/crossover.py:321-366 | the second loop keeps the invariant, and stops without fallback only when every student is locked |
| Locking.SampleExists | pystsup/evolutionary/crossover/crossover.py:375-377 | `random.sample` of k from a pool of at least k has a duplicate-free outcome |
| Locking.AddEachEdges | pystsup/evolutionary/crossover/crossover.py:377-381 | adding sampled students gives exactly those edges more |
| Locking.AddEachDegrees | pystsup/evolutionary/crossover/crossover.py:377-381 | that raises only this supervisor's degree, by the sample size |
| Locking.AddAll | pystsup/evolutionary/crossover/crossover.py:377-381 | the fallback's inner loop adds the sample, locks it and removes it from the available set |
| Locking.FillSup | pystsup/evolutionary/crossover/crossover.py:369-381 | one supervisor is filled to its target from the available students |
| Locking.Fill | pystsup/evolutionary/crossover/crossover.py:369-381 | the fallback locks every student and gives every supervisor its target degree |
| Locking.FillEnd | pystsup/evolutionary/crossover/crossover.py:369-381 | after all supervisors, nothing is available and the child is complete |
| Locking.AllocationsMerge | pystsup/evolutionary/crossover/crossover.py:268 | the merge of two allocations over the same tables succeeds |
| Locking.InitialLocks | pystsup/evolutionary/crossover/crossover.py:275-293 | with one parent's structure as target and zero counts, the locking invariant holds at the start |
| Locking.AllLockedComplete | pystsup/evolutionary/crossover/crossover.py:362-366 | when every student is locked, every supervisor has reached its target |
| Locking.ChildAllocation | pystsup/evolutionary/crossover/crossover.py:249-383 | a complete child is an allocation with exactly the target parent's structure |
| Locking.ParentTarget | pystsup/evolutionary/crossover/crossover.py:275-281 | the target taken from the chosen parent's structure gives each supervisor exactly its degree in that parent, whose students each have one supervisor |
| Locking.Crossover | pystsup/evolutionary/crossover/crossover.py:249-383 | `crossover` of two allocations never raises and returns a fresh allocation whose structure equals the chosen parent's |
| Locking.Offspring | pystsup/evolutionary/crossover/crossover.py:294-381 | the two loops and the fallback end with a complete child |
| NewCrossover.Crossover10 | pystsup/evolutionary/crossover/newCrossover.py:5-31 | KeyError exactly when the merge fails; otherwise the result lists the ordered pairs of students sharing two candidates, computed on a merge of the parents |
| NewCrossover.FindRow | pystsup/evolutionary/crossover/newCrossover.py:21-29 | the inner loop for one student returns its row, whose members RowMembers characterises |
| NewCrossover.RowMembers | pystsup/evolutionary/crossover/newCrossover.py:21-29 | the inner loop for student a returns (a, b) exactly when b is among the other students and shares both candidates with a |
| NewCrossover.RowsMembers | pystsup/evolutionary/crossover/newCrossover.py:19-29 | (a, b) is returned exactly when both are students and share two candidates |
| NewCrossover.PairsSymmetric | pystsup/evolutionary/crossover/newCrossover.py:19-29 | (a, b) is returned exactly when (b, a) is |
| NewCrossover.PairsAreFourCycles | pystsup/evolutionary/crossover/newCrossover.py:19-29 | on a merge of two allocations, returned pairs are distinct students with exactly the same two candidates |
| Mutation.Mutate | pystsup/evolutionary/mutation/mutate.py:22-104 | errors only with ZeroDivisionError when the probabilities sum to 0, or IndexError when there is a single supervisor; success returns a fresh allocation that is the input after a sequence of genuine transfers and swaps; with every draw above the probability the copy is unchanged |
| Mutation.MutateRows | pystsup/evolutionary/mutation/mutate.py:57-101 | the loop over all supervisors keeps an allocation that is the input after genuine operations; it fails only when there is a single supervisor; with no draw at or below the probability nothing changes |
| Mutation.MutateSupervisor | pystsup/evolutionary/mutation/mutate.py:57-101 | one supervisor's edges keep an allocation and keep `canTransferTo` equal to the supervisors below quota |
| Mutation.MutateEdge | pystsup/evolutionary/mutation/mutate.py:59-101 | an edge is mutated only if its draw is at most the probability; a transfer never targets the source, a swap pairs two supervisors, and the allocation and `canTransferTo` are kept |
| Mutation.ReplayAppend | pystsup/evolutionary/mutation/mutate.py:57-101 | replaying two sequences of mutations is replaying their concatenation |
| Mutation.TransferableAfterMove | pystsup/evolutionary/mutation/mutate.py:74-86 | re-adding the source and dropping a full target keeps `canTransferTo` exact |
| Mutation.TransferableAfterSwap | pystsup/evolutionary/mutation/mutate.py:93-101 | a swap leaves the supervisors below quota unchanged |
| Selection.Pairs | pystsup/evolutionary/selection/selection.py:35 | `popSize // 2` is 0 exactly for sizes below 2 |
| Selection.Choice | pystsup/evolutionary/selection/selection.py:38-41 | `random.randint(0, len(pop) - 1)` yields a population index |
| Selection.Winner | pystsup/evolutionary/selection/selection.py:44-53 | the winner of a duel is one of the two players |
| Selection.WinnerIsUnbeaten | pystsup/evolutionary/selection/selection.py:44-53 | neither player beats the winner, the strictly better one wins, and a tie goes to the second player |
| Selection.TournamentSelection | pystsup/evolutionary/selection/selection.py:18-61 | an empty population raises IndexError unless no pair is wanted; otherwise it returns exactly `popSize // 2` pairs, each being the tournament's duel winners |
| Selection.TournamentParentsWin | pystsup/evolutionary/selection/selection.py:38-53 | every selected parent is a population member beaten by neither of its duel's players |
| Selection.Objective | pystsup/evolutionary/selection/selection.py:87-130 | the wheel values are the population's `Fst` or `Fsup`, position by position |
| Selection.FirstExceeding | pystsup/evolutionary/selection/selection.py:95-105 | a spin selects the first position whose running sum exceeds the pick, and none when no running sum does |
| Selection.Spins | pystsup/evolutionary/selection/selection.py:87-130 | after k spins without error there are exactly k selected pairs |
| Selection.Spin | pystsup/evolutionary/selection/selection.py:95-105 | the running-sum loop selects that position |
| Selection.SpinsInRange | pystsup/evolutionary/selection/selection.py:87-130 | every selected position is a population index |
| Selection.ErrorSticks | pystsup/evolutionary/selection/selection.py:87-130 | once a spin fails, the selection stays failed |
| Selection.SpinUntil | pystsup/evolutionary/selection/selection.py:87-130 | each of the two loops spins until its pair count is reached |
| Selection.RouletteLoops | pystsup/evolutionary/selection/selection.py:87-130 | the two loops produce `popSize // 2` spins, the first `popSize // 4` on the `Fst` wheel |
| Selection.RouletteWheel | pystsup/evolutionary/selection/selection.py:66-133 | as written: both totals are sums of `Fst` |
| Selection.RouletteWheelCorrected | pystsup/evolutionary/selection/selection.py:84-85 | the corrected selection spins the `Fsup` wheel with picks up to the `Fsup` total |
| Selection.SpinSlot | pystsup/evolutionary/selection/selection.py:95-105 | with non-negative values, position i is selected exactly when the pick lies in its slice of the wheel |
| Selection.SpinBelowTotal | pystsup/evolutionary/selection/selection.py:95-105 | a pick below the total always selects someone |
| Selection.CorrectedWheelAlwaysPicks | pystsup/evolutionary/selection/selection.py:84-130 | with positive totals that are the wheels' sums, and picks in [0, total), the selection never fails and every parent is its own spin's selection |
| Selection.FsupWheelOverrun | pystsup/evolutionary/selection/selection.py:85 | as written, a population with `Fst` 5, `Fsup` 1 and size 2 gives `NameError` at pick total/2; the corrected wheel gives (0, 0) |
| NondominatedSort.DominatedList | pystsup/evolutionary/geneticAlgorithm.py:199-207 | the dominated list of a solution holds exactly the solutions it dominates, without repeats |
| NondominatedSort.NonDominatedBelow | pystsup/evolutionary/geneticAlgorithm.py:197-211 | the first front lists exactly the solutions no one dominates, in population order |
| NondominatedSort.FastNonDominatedSort | pystsup/evolutionary/geneticAlgorithm.py:182-233 | the last front is empty and the others are not; front k lists exactly the k-th non-domination layer; every solution is in some front, and its rank indexes the front that lists it |
| NondominatedSort.FirstPass | pystsup/evolutionary/geneticAlgorithm.py:197-211 | the first loop computes the domination counts and lists, and front 0 |
| NondominatedSort.FirstEntry | pystsup/evolutionary/geneticAlgorithm.py:199-211 | one solution of the first loop: its dominated list and domination count are recorded, and it joins front 0 with rank 0 exactly when nothing dominates it |
| NondominatedSort.DominationOf | pystsup/evolutionary/geneticAlgorithm.py:199-207 | the inner loop returns what the solution dominates and how many dominate it |
| NondominatedSort.ProcessFront | pystsup/evolutionary/geneticAlgorithm.py:217-229 | processing a front decrements the counts by exactly that front's members and lists the next layer with rank +1 |
| NondominatedSort.UptoClosed | pystsup/evolutionary/geneticAlgorithm.py:213-231 | the union of the first layers contains everything that dominates its members |
| NondominatedSort.EmptyLayerCoversAll | pystsup/evolutionary/geneticAlgorithm.py:213-231 | an empty layer means every solution has been ranked |
| NondominatedSort.FirstLayerUndominated | pystsup/evolutionary/geneticAlgorithm.py:197-211 | a solution is in front 0 exactly when no member of the population dominates it |
| NondominatedSort.LayerIsAntichain | pystsup/evolutionary/geneticAlgorithm.py:219-228 | no member of a front dominates another member of the same front |
| NondominatedSort.LayerDominatedByPrevious | pystsup/evolutionary/geneticAlgorithm.py:219-228 | every member of front k+1 is dominated by a member of front k |
| NondominatedSort.LayersDisjoint | pystsup/evolutionary/geneticAlgorithm.py:213-231 | a solution is in only one front |
| NondominatedSort.MaxSum | pystsup/evolutionary/geneticAlgorithm.py:197-211 | a non-empty set has a member with the largest objective sum |
| Nsga.ByKeyIsStrictWeakOrder | pystsup/evolutionary/geneticAlgorithm.py:250-258 | sorting by an objective value uses a strict weak order |
| Nsga.CrowdingDistanceAssignment | pystsup/evolutionary/geneticAlgorithm.py:236-273 | an empty front is untouched; ZeroDivisionError exactly when the front has 3 or more members and an objective span is 0; otherwise non-members keep their distance and each member gets its crowding distance from the two sorted orders |
| Nsga.AssignFromOrders | pystsup/evolutionary/geneticAlgorithm.py:259-273 | from the zeroed front and both orders, the same error condition and result |
| Nsga.ZeroFront | pystsup/evolutionary/geneticAlgorithm.py:250-252 | members of the front are set to 0, others unchanged |
| Nsga.AddGaps | pystsup/evolutionary/geneticAlgorithm.py:259-273 | one objective's loop sets both ends to infinity and adds the normalised neighbour gap to interior members |
| Nsga.CrowdingComplete | pystsup/evolutionary/geneticAlgorithm.py:259-273 | after both loops each member holds its crowding distance |
| Nsga.CrowdingEnds | pystsup/evolutionary/geneticAlgorithm.py:259-273 | a member's distance is infinite exactly when it is an end of one of the two orders |
| Nsga.UniqueExtremeIsInfinite | pystsup/evolutionary/geneticAlgorithm.py:259-273 | a member with a strictly smallest or largest objective value gets infinity |
| Nsga.CrowdingBounded | pystsup/evolutionary/geneticAlgorithm.py:259-273 | a finite crowding distance lies in [0, 2] when the spans bound the values |
| Nsga.ByStandingIsStrictWeakOrder | pystsup/evolutionary/geneticAlgorithm.py:449-452 | the crowded comparison used to sort the last front is a strict weak order |
| Nsga.Truncate | pystsup/evolutionary/geneticAlgorithm.py:439-456 | whole fronts are taken while they fit; then the next front, sorted by crowded comparison, tops up exactly `popSize`; IndexError only when every front fits and the population is still short; ZeroDivisionError only from a zero span |
| Nsga.CompleteFromFronts | pystsup/evolutionary/geneticAlgorithm.py:449-456 | after the loop: the population is returned as is when full; IndexError exactly when every front was taken and it is still short (given nonzero spans); otherwise the sorted next front completes it to `popSize` |
| Nsga.FillFromNextFront | pystsup/evolutionary/geneticAlgorithm.py:447-456 | the sorted prefix of the next front completes the population to its size |
| Nsga.TakeWholeFronts | pystsup/evolutionary/geneticAlgorithm.py:439-446 | the loop takes exactly the maximal run of fronts that fit |
| Nsga.WholeFrontsStops | pystsup/evolutionary/geneticAlgorithm.py:439-446 | the whole-front loop stops at a front count whose fronts fit, and the next front, if any, would not fit |
| Nsga.WholeFrontsMaximal | pystsup/evolutionary/geneticAlgorithm.py:439-446 | the fronts taken fit, and taking one more front would exceed the size |
| Nsga.EnoughSolutionsNoIndexError | pystsup/evolutionary/geneticAlgorithm.py:439-456 | with at least `popSize` solutions in total, truncation never runs out of fronts |
| Nsga.TruncatedNoDup | pystsup/evolutionary/geneticAlgorithm.py:439-456 | the new population has no repeated solution |
| Nsga.KeptNotFartherThanDropped | pystsup/evolutionary/geneticAlgorithm.py:449-456 | no dropped member of the last front is farther, by crowding distance, than a kept one |
| Nsga.PyPrefix | pystsup/evolutionary/geneticAlgorithm.py:338-341 | a Python slice `l[:k]`, with negative `k` counting from the end |
| Nsga.FilterPopulation | pystsup/evolutionary/geneticAlgorithm.py:306-341 | the output is the first occurrences in order, followed by the repeats sorted by rank and cut to the remaining size |
| Nsga.FirstsMembers | pystsup/evolutionary/geneticAlgorithm.py:321-333 | a position is a first occurrence exactly when its key appears nowhere earlier |
| Nsga.RepeatsMembers | pystsup/evolutionary/geneticAlgorithm.py:321-333 | a position is a repeat exactly when its key appears earlier |
| Nsga.FirstsDistinct | pystsup/evolutionary/geneticAlgorithm.py:321-333 | the first occurrences lie within the population and hold pairwise different keys |
| Nsga.FirstsComplete | pystsup/evolutionary/geneticAlgorithm.py:321-333 | every key has its first occurrence among them |
| Nsga.FilterIsPermutation | pystsup/evolutionary/geneticAlgorithm.py:321-341 | with a size of at least the population, the output is a permutation of the positions |
| Nsga.FilterSize | pystsup/evolutionary/geneticAlgorithm.py:335-341 | the output has `min(size, |population|)` positions (its first-occurrence part is never cut) |
| Nsga.Track | pystsup/evolutionary/geneticAlgorithm.py:419-425 | the counter resets exactly when there is no best yet or the new hypervolume is lower; otherwise it grows by one and the best is kept |
| Nsga.FirstMin | pystsup/evolutionary/geneticAlgorithm.py:419-425 | the first generation with the lowest hypervolume |
| Nsga.TrackAllIsFirstMin | pystsup/evolutionary/geneticAlgorithm.py:380-425 | after n generations the best is the lowest hypervolume seen, from the first generation that reached it, and the counter is the number of generations since |
| Nsga.Generations | pystsup/evolutionary/geneticAlgorithm.py:407-425 | the loop runs while the counter is at most 20, and stops early only when it reaches 21 |
| Nsga.StagnationMeansNoImprovement | pystsup/evolutionary/geneticAlgorithm.py:407-425 | stopping by stagnation means none of the last 21 generations beat the best |
| Nsga.Mutants | pystsup/evolutionary/geneticAlgorithm.py:79-106 | one mutant per solution, in order |
| Nsga.Children | pystsup/evolutionary/geneticAlgorithm.py:109-137 | one child per selected pair, in order |
| Nsga.Mutation | pystsup/evolutionary/geneticAlgorithm.py:79-106 | the mutation loop returns one mutant per solution, in order |
| Nsga.Crossover | pystsup/evolutionary/geneticAlgorithm.py:109-137 | the crossover loop returns one child per selected pair, in order |
| Nsga.MakeNewPopulation | pystsup/evolutionary/geneticAlgorithm.py:140-178 | a selection error is the result; otherwise the mutants (if on) are followed by the children (if on) |
| Nsga.OffspringSize | pystsup/evolutionary/geneticAlgorithm.py:162-178 | the offspring number `|population|` mutants plus `popSize // 2` children, each present only when its operator is on |
| IntegerPartition.RandInt | pystsup/utilities/integerPartition.py:39 | `randint(lo, hi)` lies in [lo, hi] |
| IntegerPartition.Draws | pystsup/utilities/integerPartition.py:38-40 | the quota draws are `max(m, 0)` values within [lo, hi] |
| IntegerPartition.DrawQuotas | pystsup/utilities/integerPartition.py:38-40 | ValueError exactly when m > 0 and lo > hi; otherwise `max(m, 0)` draws within the bounds |
| IntegerPartition.Shuffle | pystsup/utilities/integerPartition.py:43 | the in-place shuffle permutes the array |
| IntegerPartition.Decrease | pystsup/utilities/integerPartition.py:47-70 | lowering succeeds exactly when count·lo ≤ n (IndexError otherwise), giving a list of the same length, summing to n, within the bounds |
| IntegerPartition.LoweringStep | pystsup/utilities/integerPartition.py:59-67 | lowering one value above `lo` keeps the length and bounds and lowers the sum by one |
| IntegerPartition.Increase | pystsup/utilities/integerPartition.py:73-98 | raising succeeds exactly when n ≤ count·hi (IndexError otherwise), giving a list of the same length, summing to n, within the bounds |
| IntegerPartition.RaisingStep | pystsup/utilities/integerPartition.py:87-96 | raising one value below `hi` keeps the length and bounds and raises the sum by one |
| IntegerPartition.Partition | pystsup/utilities/integerPartition.py:19-104 | succeeds exactly when the draws are possible and count·lo ≤ n ≤ count·hi (ValueError or IndexError otherwise); the result has `max(m, 0)` values, sums to n and lies within the bounds; draws that already sum to n are returned as shuffled |
| IntegerPartition.SumBounds | pystsup/utilities/integerPartition.py:47-102 | values within [lo, hi] sum to between count·lo and count·hi |
| IntegerPartition.SumOfPermutation | pystsup/utilities/integerPartition.py:43 | a permutation keeps the sum |
| IntegerPartition.FiveOfEach | pystsup/utilities/createRandomData.py:58 | `partition(45, 10, 4, 5)`, for any draws, succeeds with ten quotas summing to 45: five 4s and five 5s |
| AcmParser.StripLeadingKeeps | pystsup/utilities/acmParser.py:47 | stripping leading characters keeps a suffix that starts outside the stripped set |
| AcmParser.StripTrailingKeeps | pystsup/utilities/acmParser.py:48 | stripping trailing characters keeps a prefix that ends outside the stripped set |
| AcmParser.TopicNameLower | pystsup/utilities/acmParser.py:70 | a stored topic name has no upper-case letter |
| AcmParser.StoredNameLower | pystsup/utilities/acmParser.py:70 | every name the parser stored came from a line through the lower-casing, so none has an upper-case letter |
| AcmParser.ParseFile | pystsup/utilities/acmParser.py:17-81 | the line loop computes the fold of the per-line step, whose properties the lemmas below state |
| AcmParser.ParseLine | pystsup/utilities/acmParser.py:44-77 | one pass of the loop: blank lines skipped, a nameless line raises IndexError, otherwise one new topic |
| AcmParser.PrefixError | pystsup/utilities/acmParser.py:43-77 | an error on a prefix of the lines is the error of the whole file |
| AcmParser.ParsedConsistent | pystsup/utilities/acmParser.py:43-77 | after parsing, ids 1..tid key the id, path and level dictionaries; every parent id is below its own id; names and ids agree, and a repeated name keeps its last id |
| AcmParser.ParsedFromLines | pystsup/utilities/acmParser.py:43-77 | ids run 1, 2, 3, … with one id per non-blank line; each level is its line's tab count + 1 and each name comes from its own line |
| AcmParser.WellIndentedParses | pystsup/utilities/acmParser.py:54-68 | lines that each have a name and are indented at most one tab deeper than the previous line parse without error |
| AcmParser.OnlyIndexErrors | pystsup/utilities/acmParser.py:43-77 | the only error parsing can raise is IndexError |
| AcmParser.NamelessLineFails | pystsup/utilities/acmParser.py:47-50 | a line with no text after the tabs makes parsing fail |
| AcmParser.DedentPastRootFails | pystsup/utilities/acmParser.py:62-65 | a two-tab line followed by a one-tab line at the start pops the stack empty and fails |
| AcmParser.GetPath | pystsup/utilities/acmParser.py:84-108 | the walk returns the keyword followed by its ancestors' names up to the root, or KeyError for a missing id |
| AcmParser.AncestorsFound | pystsup/utilities/acmParser.py:103-106 | on a consistent parser state every ancestor is found and is a stored name |
| AcmParser.PathsFound | pystsup/utilities/acmParser.py:98-108 | every stored name has a path, starting with itself, of stored names |
| AcmParser.CapitalisedKeywordMissing | pystsup/utilities/acmParser.py:70 | a keyword containing a capital letter is never a stored name, so `getPath` raises KeyError |
| AcmParser.ParsedPathsFound | pystsup/utilities/acmParser.py:98-108 | `getPath` succeeds on everything `parseFile` stored |

## Left out

- `removeExceptSup` (`bipartiteGraph.py:472-485`) is never called by the operators modelled here.
- `getAllEdges` (`bipartiteGraph.py:587-597`) refers to an undefined name and cannot run.
- The trivial accessors (`getEdges`, `getStuEdges`, `getSupervisorDegree` and the like) are the map fields and `GraphModel.Degree`.
- `Solution.transferStudent` only delegates to the graph.
- Fitness scoring is not modelled: `calcFitness`, `kw_similarity` and the structural fitness functions use floating-point statistics. Fitness values are inputs.
- `initializePopulation` and `generateRandomSolution` only call `createRandomGraph` and the fitness functions.
- The maximum matching of `hopkroft` (the `HopcroftKarp` call) and `sp_crossover` depend on a foreign library. Only the slot expansion is modelled.
- The hypervolume (pygmo, `SMetric`) is a foreign library. Each generation's value is an input to the stagnation model.
- Not modelled: the `time`/`print` bookkeeping of `start`, the GUI, file and experiment I/O, and data generation.
- Locking.Crossover: the draw between the two parents' structures is a boolean. The source compares a float ratio of fitness values, which raises ZeroDivisionError when both are 0.
- Locking.Crossover: requires both parents to be allocations over the same tables, as the genetic algorithm supplies them.
- Locking: the fallback adds a supervisor's whole need to its count once per sampled student. This is modelled as written (`Repeated`). Those counts are never read again.
- `random.sample` on a set is the behaviour before Python 3.11; from 3.11 it raises TypeError.
- Repair.FixSolution: IndexError is proved impossible only when there are at least as many students as supervisors and at most the total quota. Outside that range the model states what holds if no choice fails, and does not say which inputs make one fail.
- Recombination.Uniform and Recombination.KPoint: require both parents to be allocations over the same tables, as the genetic algorithm supplies them. Those parents are what guarantee that the repair succeeds.
- Bipartite.BipartiteGraph.CreateRandomGraph: the source keys the new graph by `getSupervisorID()` but deletes from `supervisors_left` by the dictionary key (`bipartiteGraph.py:275`, `288`, `296-308`). The model has one key per supervisor, so the two are assumed equal.
- Recombination.KPoint: the structure draw at `crossover.py:483-487` is unused and not modelled.
- GraphOps.RemoveExceptFrom: with three or more candidates, removal skips elements (RemoveExceptSkipsWithThree). The operators only call it with at most two.
- AcmParser.TopicNameLower: lower-casing is modelled for ASCII letters only.
- AcmParser.GetPath: requires every parent id to be below its own id (`ParentsBelow`, which parsing guarantees). On a parent cycle the source loops forever.
- Simplify.Is4Cycle: the implicit `None` for "no" becomes `false`.
- Slots.Expand: a student's slot label `'stu' + str(i)` becomes the integer `i`.
- Simplify.Simplify, Simplify.Solve4Cycle and Simplify.RandomAllocation: require a merged graph, in which no student has more than two candidates. None of the three is called by the crossover operators. The tests call `simplify` on two small graphs in which every student has at most two candidates (`test_crossover.py:161`, `177`).
- Selection: the duel and wheel draws are oracles. Their ranges are what `random.randint` and `random.uniform` promise.

## Findings

| source | as written | input that shows it | evidently intended | confidence | as-written member | corrected member |
|---|---|---|---|---|---|---|
| pystsup/data/bipartiteGraph.py:334-339 | `transferStudent` with `fromSup == toSup` adds the (existing) edge, then removes it | supervisor A with students x, y; transfer x from A to A | a transfer to the same supervisor changes nothing | not executed | GraphOps.TransferToSelfDropsStudent | GraphOps.TransferCheckedKeepsAllocation |
| pystsup/evolutionary/selection/selection.py:85 | `totalFsup` is summed over `getFst()` | one solution with Fst 5 and Fsup 1, popSize 2, pick = total/2 | the Fsup wheel's picks are drawn below the Fsup total | not executed | Selection.FsupWheelOverrun | Selection.CorrectedWheelAlwaysPicks |
| pystsup/data/solution.py:472-489 | `isValid` only inspects students listed under a supervisor | student b with an empty supervisor list, quota 2 for A holding a | a valid solution allocates every student | not executed | Solutions.IsValidAcceptsUnallocatedStudent | Solutions.StrictIsAllocation |
