# ldgr: a Dafny model of causal fault analysis over journals

ldgr records a run as an append-only journal of entries that name their parents by
content address. From the entries that witness a violation it walks the journal
backward, collects the faultable entries of every derivation, and asks for a cheapest
set of faults that breaks every derivation. The answer is certified by a verifier with
its own traversal. Around this sit a linearizability checker, a durable workflow engine,
an importer for trace spans, content-addressed cache keys, an in-process network and
online monitors. This project models that core and proves what it promises.

How it is laid out:

- `Journals`, `Ordering`, `Store`, `Clocks`: entries, causal journals, the append that keeps them
  causal, canonical (sorted, duplicate-free) clause lists, and what vector clocks say of the past.
- `WalkSpec`: what a backward walk is meant to collect, said three ways: a recursive path
  list, a bag of paths, and derivation chains (sequences of entries along parent edges).
- `MemoWalk`, `LineageWalk`, `CertWalk`: the five walkers of the source, each a stack or memo
  machine proved against `WalkSpec`.
- `Support`, `Solver`, `Hazard`: support expressions and the hazard encoder.
- `Lineage`, `Rebuild`, `Fronts`, `RefreshExamples`: the incremental lineage index, and exactly when a
  refresh equals a rebuild.
- `HittingSets`, `BranchAndBound`, `BoundExample`, `Cnf`, `Counter`, `Threshold`: the two engines.
- `Certificates`, `Pipeline`: the verifier and the end-to-end theorems.
- `Workflow`, `Resume`, `Episodes`, `StepHistory`: what a journal says of a workflow, one attempt to
  run it, runs of many attempts, and what any journal says of a step.
- `Spans`, `SpanJournal`: the order of a span batch and the journal built from it.
- `Linearizability`, `LinOracle`; `Bytes`, `Keys`, `MemoKeys`; `Network`; `Monitors`: the other
  cores.

Modelling decisions:

- An address is a natural number, the 32 bytes read big-endian, so numeric order is byte order.
  BLAKE3 is taken as injective: key properties are properties of the bytes that are hashed,
  and an appended entry gets an address no earlier entry has.
- `Causal` says that ids are distinct and that a parent the journal holds is earlier. Parents
  it does not hold are allowed, as after slicing. `Store.AppendKeepsCausal` shows that every
  journal grown by appends is causal and closed under parents.
- The SAT solver is a complete decision procedure that returns a model or unsat.
- The result of an effect and the fate of an append are parameters (`Resume.World`), so a
  theorem about a run holds for every way it can fail.

Where the code does less than its comments say, the model follows the code and the exact
condition is proved:

- A walk that was cut by its horizon or its budget is not refused: `support_from_paths` records
  the cut as an opaque branch, and that branch leaves no clause. Provenance is refused exactly
  when no fault set was collected (`Hazard.EncodeHazard`, `Hazard.CutIsNotRefused`).
- The greedy warm start ignores the cardinality bound. The answer respects the bound exactly
  when the warm start does or some cut within the bound is cheaper (`BranchAndBound.SolveWithBudget`).
  It can exceed a bound that some cut meets (`BoundExample.BoundIsIgnored`).
- `refresh` skips a witness that is cached as a mere ancestor. Call an entry a front of a witness
  when a fault can be injected at it and at nothing in front of it on some way back. Without a
  horizon no entry is lost, and the result is a rebuild exactly when every front of a skipped
  witness is a front of a walked one (`Fronts.RefreshIffFronts`). With a horizon, what the fronts
  show with the horizon left behind them decides, and how near the entries are
  (`Fronts.RefreshIffShown`). Both conditions do fail (`RefreshExamples.RefreshCanMiss`,
  `RefreshExamples.HorizonMatters`).
- A campaign attempt without an input hash shares its key with one that has an input hash
  exactly when its replay passes `MemoKeys.Deceptive`: the top byte of its third decision is 0xA1
  and its fourth counts the rest (`MemoKeys.AttemptCollisions`).
- With duplicate span ids a child can observe the wrong entry. The bound parent's entry is a
  parent of the child's entry exactly when it was the first of its id to be emitted, or nothing
  was appended between the two (`SpanJournal.EdgeIffFirst`, `SpanJournal.EdgeIsLost`).
- A step end pairs with the begin it names exactly when the actor has appended nothing since
  (`Workflow.EndPairsIffHead`). So a resume that returned Ok has paired the whole plan exactly when
  the actor never appended an entry of its own behind an open begin
  (`Episodes.OkMeansPairedIffClean`). One such entry makes every later Ok run that effect again
  (`Episodes.UncleanRunsAgain`), and another step can end up completed with its result
  (`Episodes.WrongResultReached`).

## Model

| member | source | states |
|---|---|---|
| Store.ParentList | crates/ledger-journal/src/dag.rs:228-262 | for any observed list the parents are the actor's head and the observed entries, each once, the head first |
| Store.ParentOrder | crates/ledger-journal/src/dag.rs:228-262 | the parents are the first occurrences, in order, in the head followed by the observed entries |
| Store.FirstParent | crates/ledger-journal/src/dag.rs:228-262 | with one observed entry: observing one's own head yields exactly that one parent |
| Store.DurableJournal.Append | crates/ledger-journal/src/dag.rs:306-370 | succeeds if and only if the store does, every parent is recorded and they are at most 4096; a failed append changes nothing, a successful one adds exactly one entry below the actor's head and the observed entries, and keeps the journal causal and parent-closed |
| Store.AppendKeepsCausal | crates/ledger-journal/src/dag.rs:306-370 | an entry with any unused address and recorded parents keeps every journal causal and parent-closed |
| Journals.FaultCost | crates/ledger-explorer/src/solver/hitting_set.rs:499-511 | every event has a positive price, at most 5 for a recorded one |
| Journals.PricesByClass | crates/ledger-explorer/src/solver/hitting_set.rs:499-511 | the prices by class: network events 2, timers 3, storage 4, anything else recorded 5, unrecorded 10; an event can be faulted if and only if its kind is priced below 5 |
| Clocks.MergeIsLeast | crates/ledger-journal/src/clock.rs:32-83 | merging gives the least clock that is not before either |
| Clocks.MergedHappensBefore | crates/ledger-journal/src/clock.rs:85-109 | a clock merged into another that then ticks happens strictly before the result |
| Clocks.AppendKeepsChained | crates/ledger-journal/src/dag.rs:306-370 | every append keeps each actor's entries chained by parent edges |
| Clocks.ClockTells | crates/ledger-journal/src/clock.rs:1-3 | in a journal grown by appends a clock component is the number of that actor's latest entry in the past, and the own component the entry's own number |
| Clocks.PastIffCounted | crates/ledger-journal/src/clock.rs:1-3 | an entry is in another's past if and only if its number is within the count the other's clock has for its actor |
| Clocks.ClocksDecideCausality | crates/ledger-journal/src/clock.rs:94-109 | for any two recorded entries, one clock is before or equal to the other if and only if its entry is in the other's past, and strictly before if and only if the entries also differ |
| WalkSpec.PathsMatchBag | crates/ledger-explorer/src/lineage.rs:34-82 | the two ways the source writes the recursion (paths built bottom-up, paths carried top-down) collect the same paths with the same multiplicity |
| WalkSpec.FaultSetsAreDerivations | crates/ledger-explorer/src/maxsat.rs:104-143 | a set is collected if and only if it is the non-empty set of faultable entries of some derivation chain of a witness, cut at the horizon |
| WalkSpec.DerivationMeans | crates/ledger-explorer/src/maxsat.rs:104-143 | a sequence is a derivation if and only if it follows parent edges from the start, takes at most the horizon's number of steps, and stops short of it only at an entry without parents |
| MemoWalk.BoundedMemo.Collect | crates/ledger-explorer/src/maxsat.rs:104-143 | the memoised recursion returns the plain recursive list and raises its flag if and only if the horizon cuts the walk |
| MemoWalk.UnboundedMemo.Collect | crates/ledger-explorer/src/maxsat.rs:39-102 | the two-phase stack machine stops and returns exactly the recursive list, unless the lists of what the start reaches need more cells than the budget; whatever it returns is made of real paths |
| MemoWalk.UnboundedMemo.Join | crates/ledger-explorer/src/maxsat.rs:73-97 | joining the parents' cached lists gives the entry's own list, charged cell by cell, or a breach that the full list really causes |
| MemoWalk.AppendUnderBudget | crates/ledger-explorer/src/maxsat.rs:84-94 | the inner loop adds a prefix of the extended paths, all of them unless the budget is breached, and charges exactly what it stored |
| LineageWalk.Walker.CollectBounded | crates/ledger-explorer/src/lineage.rs:34-82 | adds exactly the paths and entries below the current one, restores the current path, and raises the flag if and only if the horizon cuts |
| LineageWalk.Walker.CollectUnbounded | crates/ledger-explorer/src/lineage.rs:90-145 | stops on any graph, and even when the budget runs out every path it adds is the faultable part of a chain that follows parent edges from the start; on a causal journal it restores the path, runs out if and only if the unfolded walk is larger than the budget, and otherwise collects the recursive bag and closure |
| CertWalk.CollectFrom | crates/ledger-explorer/src/certs.rs:1086-1123 | one start: the path list grows by exactly the recursive bag, or the list would exceed the path limit |
| CertWalk.CollectFaultPaths | crates/ledger-explorer/src/certs.rs:1079-1125 | succeeds if and only if the paths of the witnesses fit the limit, and then holds them with their multiplicities; the repeated-entry guard drops nothing on a causal journal |
| Support.Evaluate | crates/ledger-explorer/src/support.rs:94-130 | the early-returning loop computes `Eval`, whose three answers `Support.EvalMeans` decides |
| Support.EvalMeans | crates/ledger-explorer/src/support.rs:94-130 | under any horizon: Satisfied if and only if some conjunction within the horizon is wholly held; Unknown if and only if none is and something is opaque or beyond the horizon; NotSatisfied if and only if neither |
| Support.ClausesDecide | crates/ledger-explorer/src/support.rs:261-280 | a well-formed expression is NotSatisfied if and only if it is strong and no compiled clause is held, and Unknown if and only if it is not strong and none is held |
| Support.HorizonOnlyBlurs | crates/ledger-explorer/src/support.rs:81-130 | a horizon can only turn an answer into Unknown, never change a definite one |
| Support.HardClausesFromSupport | crates/ledger-explorer/src/support.rs:261-280 | the extending loop compiles the clause list of the expression |
| Support.ClausesPreserveMeaning | crates/ledger-explorer/src/support.rs:261-280 | a well-formed expression is Satisfied if and only if some compiled clause is wholly held |
| Support.HittingFalsifies | crates/ledger-explorer/src/support.rs:261-280 | deleting a cut leaves the expression unsatisfied if and only if the cut meets every clause that was held |
| Support.SupportFromPaths | crates/ledger-explorer/src/support.rs:283-304 | the expression is well formed, is strong if and only if nothing was cut and some path is non-empty, and compiles to the clauses of the paths whether or not the walk was cut |
| Support.PathClauses | crates/ledger-explorer/src/support.rs:283-304 | the compiled clauses are exactly the sorted member sets of the non-empty paths |
| Hazard.EncodeHazard | crates/ledger-explorer/src/maxsat.rs:145-213 | missing witnesses are refused; while the lists the witnesses reach fit the cell budget, empty provenance is refused if and only if there are witnesses without a fault set, and otherwise the clauses are the canonical list of exactly the witnesses' fault sets, with one priced soft clause per literal and the bound as configured; past the budget they still name only real fault sets |
| Hazard.CutIsNotRefused | crates/ledger-explorer/src/support.rs:283-304 | a two-entry journal where the encoder, called with a horizon that cuts, answers and blames one entry alone, though called with any farther horizon it blames the pair |
| HittingSets.DisjointLower | crates/ledger-explorer/src/maxsat.rs:273-293 | the sum of the least prices of clauses taken in price order, each apart from those before, such that every clause shares a literal with a taken one; it never exceeds the cost of any hitting set, and on pairwise disjoint priced clauses some hitting set attains it |
| HittingSets.TakenIsMaximal | crates/ledger-explorer/src/maxsat.rs:273-293 | the clauses taken are pairwise disjoint, and each clause left out shares a literal with one taken before it |
| HittingSets.ClauseMinCost | crates/ledger-explorer/src/maxsat.rs:267-271 | the least price of a priced literal, or one when none is priced |
| BranchAndBound.GreedyIncumbent | crates/ledger-explorer/src/maxsat.rs:392-426 | the loop computes the greedy choice, one `Choice` after the other |
| BranchAndBound.ChoiceMeans | crates/ledger-explorer/src/maxsat.rs:392-426 | the literal taken next covers at least as many clauses as any other, is the cheapest of those, free counting as one, and has the least address of those |
| BranchAndBound.GreedyHits | crates/ledger-explorer/src/maxsat.rs:392-426 | the warm start succeeds if and only if no clause is empty, and then hits every clause at a recorded cost no less than its true one |
| BranchAndBound.SearchState.FindUncovered | crates/ledger-explorer/src/maxsat.rs:439-488 | the first clause from a given index that the current choice misses |
| BranchAndBound.SearchState.Dfs | crates/ledger-explorer/src/maxsat.rs:439-488 | when it completes, no feasible extension of the current choice is cheaper than the incumbent, and the choice is restored; every cut it installs hits all clauses, respects the bound and carries its own cost; it gives up only past the node budget and never visits more nodes than the clause tree has |
| BranchAndBound.SolveWithBudget | crates/ledger-explorer/src/maxsat.rs:324-390 | an answer hits every non-empty clause, costs at most any hitting set within the bound, costs its weight sum whenever it respects the bound, and respects it if and only if the warm start does or a cheaper small cut exists; its lower bound is the disjoint sum capped at the total, and with priced literals no more than the cost of any hitting set; too many clauses or cost units always give the budget error, which otherwise means a clause tree larger than the node budget, and the other error means no cut below the 64-bit maximum |
| BranchAndBound.SolveMaxSatBnb | crates/ledger-explorer/src/maxsat.rs:314-321 | the same with the default budgets |
| Cnf.SatSolver.Solve | crates/ledger-explorer/src/maxsat_cadical.rs:125-139 | a model satisfies all clauses, and unsat means that no assignment does |
| Counter.FillTable | crates/ledger-explorer/src/maxsat_cadical.rs:142-180 | the table numbers each counter cell once, contiguously from the next free variable |
| Counter.CountersCap | crates/ledger-explorer/src/maxsat_cadical.rs:142-180 | in every model of the rows, at most k of any prefix are true |
| Counter.FilledCounts | crates/ledger-explorer/src/maxsat_cadical.rs:142-180 | an assignment with at most k true extends to the counter cells without changing an earlier variable |
| Counter.SequentialAtMost | crates/ledger-explorer/src/maxsat_cadical.rs:142-180 | for every list and every k, an assignment extends to the emitted clauses if and only if it satisfied the old ones and at most k of the list are true |
| Threshold.TryThreshold | crates/ledger-explorer/src/maxsat_cadical.rs:80-140 | a probe returns a sorted feasible cut within the threshold, or nothing exactly when no cut is feasible |
| Threshold.LeastThreshold | crates/ledger-explorer/src/maxsat_cadical.rs:53-66 | 64 probes always suffice, and the search ends at the least feasible threshold |
| Threshold.SolveIncremental | crates/ledger-explorer/src/maxsat_cadical.rs:14-78 | the cut hits, respects the bound, costs exactly the returned total, and no cut within the bound is cheaper; the reported lower bound is the disjoint sum capped at the total, no hitting set costs less, and on disjoint clauses without a bound it is the total; refusal means no hitting set respects the bound |
| Certificates.EssentialIffMinimal | crates/ledger-explorer/src/certs.rs:1039-1064 | a hitting set is inclusion-minimal if and only if each member is alone on some path |
| Certificates.CheckPaths | crates/ledger-explorer/src/certs.rs:1039-1064 | the one-pass loop accepts if and only if every path is hit and every member is alone on one; a missed path is reported if and only if there is one |
| Certificates.OnePassIsMinimal | crates/ledger-explorer/src/certs.rs:1039-1064 | on duplicate-free paths the one-pass test is inclusion-minimality of the cut |
| Certificates.BagDistinct | crates/ledger-explorer/src/certs.rs:1079-1125 | no collected path names an entry twice |
| Certificates.CheckDuplicates | crates/ledger-explorer/src/certs.rs:282-293 | accepts exactly the duplicate-free cuts |
| Certificates.RecomputeCost | crates/ledger-explorer/src/certs.rs:938-948 | checked addition never overflows on an admitted cut and gives the sum of prices |
| Certificates.CheckBinding | crates/ledger-explorer/src/certs.rs:877-950 | accepts exactly the records whose subject is the journal's non-zero root, whose journal is not lineage-only under the strict policy, whose cut is non-empty, duplicate-free, recorded, faultable and within limits, with recorded witnesses and the exact cost; every refusal names a fault the record has |
| Certificates.VerifyInclusionMinimal | crates/ledger-explorer/src/certs.rs:998-1066 | accepts if and only if the record is well bound, its paths fit the limit, and the cut is an inclusion-minimal hitting set of the fault sets of its witnesses under its horizon; every refusal names a fault the record has, down to a missed fault set or a member that can be dropped |
| Lineage.CollectLineage | crates/ledger-explorer/src/lineage.rs:147-212 | within budget: the closure of the witnesses and the canonical list of their fault sets; past it every clause still is the faultable entries of a chain along parent edges from a witness |
| Lineage.LineageIndex.Build | crates/ledger-explorer/src/lineage.rs:216-231 | a built index reflects its journal, witnesses and configuration while the node budget lasts, and past it lists only clauses that chains from the witnesses have |
| Lineage.LineageIndex.Refresh | crates/ledger-explorer/src/lineage.rs:272-318 | with an unchanged fingerprint a grown journal gives what a fresh build on the old witnesses plus the uncached new ones would; with a changed one it rebuilds; it reports a change if and only if it walked; past the node budget every clause it adds belongs to a chain from a witness it walked |
| Lineage.WitnessesStable | crates/ledger-explorer/src/lineage.rs:272-318 | appending changes neither the closure nor the fault sets of recorded witnesses |
| Fronts.RefreshIffFronts | crates/ledger-explorer/src/lineage.rs:292-317 | without a horizon a refresh never loses an entry, and has the fault sets of a rebuild on the new witnesses if and only if every first faultable entry behind a skipped witness is one behind a walked witness |
| Fronts.RefreshIffShown | crates/ledger-explorer/src/lineage.rs:292-317 | with any horizon it equals a rebuild if and only if all entries near a skipped witness are near a walked one and every fault set that a front of a skipped witness shows with the horizon left is shown by the same front of a walked one |
| Fronts.RefreshBesideRebuild | crates/ledger-explorer/src/lineage.rs:272-318 | building, growing the journal, refreshing and rebuilding: within budget the two indexes hold the same closure and paths exactly under those conditions |
| Fronts.CollectedIffShown | crates/ledger-explorer/src/lineage.rs:294-306 | a fault set of a front is collected from a list of witnesses if and only if one of them has that front with enough horizon left |
| Fronts.ClosureIffNear | crates/ledger-explorer/src/lineage.rs:34-82 | an entry is in the closure of the witnesses if and only if it is within the horizon's number of parent steps of one |
| Fronts.ClosedFront | crates/ledger-explorer/src/lineage.rs:294-306 | in a parent-closed journal the fronts are just the first faultable entries on the ways back |
| Rebuild.RefreshWithoutSkips | crates/ledger-explorer/src/lineage.rs:292-317 | it does when no further witness was already in the closure |
| Rebuild.SilentCovers | crates/ledger-explorer/src/lineage.rs:294-306 | a witness behind another one through entries that cannot be faulted adds no fault set, with the horizon shortened by the distance |
| Rebuild.SilentRefresh | crates/ledger-explorer/src/lineage.rs:292-317 | a simple case of the condition: without a horizon each skipped witness lies silently behind a walked one |
| Rebuild.SilentRefreshWithin | crates/ledger-explorer/src/lineage.rs:292-317 | the same with a horizon, when the skipped witness is also walked out before the horizon cuts it |
| RefreshExamples.HorizonMatters | crates/ledger-explorer/src/lineage.rs:294-306 | a three-entry journal where a witness lies silently behind a walked one, and at horizon one the called refresh still lacks an entry and a path that the called build has |
| RefreshExamples.RefreshCanMiss | crates/ledger-explorer/src/lineage.rs:294-306 | with no horizon and at every positive one, a refresh that names an ancestor as a witness too lacks its shorter derivation, which a build has |
| Pipeline.WalkersAgree | crates/ledger-explorer/src/maxsat.rs:145-192 | encoding succeeds if and only if all witnesses are recorded and some fault set exists or nothing is asked; then its clauses equal the index's paths as lists, and the verifier's traversal collects the same family of sets |
| Pipeline.UnboundedWalkersAgree | crates/ledger-explorer/src/lineage.rs:90-145 | without a horizon the encoder succeeds under the same condition, and agrees with the index as a list while both budgets last |
| Pipeline.EnginesAgree | crates/ledger-explorer/src/maxsat_cadical.rs:14-78 | without a bound both engines return the same cost; with one the builtin engine never returns more, and the same whenever its cut respects the bound |
| BoundExample.BoundIsIgnored | crates/ledger-explorer/src/maxsat.rs:365-390 | four crossing clauses with room for two faults: the engine answers with three cheap faults although a dearer pair hits every clause within the bound |
| Pipeline.EnginesAreCheapest | crates/ledger-explorer/src/maxsat.rs:324-390 | an answer of the builtin engine that respects the bound, and every answer of the SAT-backed one, is a cheapest cut the bound allows |
| Pipeline.CheapestIsBest | crates/ledger-explorer/src/maxsat.rs:145-213 | a cheapest cut of the encoding is, in terms of the journal, a list of events that breaks every derivation within the configured number of faults at the least sum of prices |
| Pipeline.OptimalIsMinimal | crates/ledger-explorer/src/maxsat.rs:324-390 | with positive prices a cheapest cut is an inclusion-minimal hitting set of the fault sets, under a cardinality bound too |
| Pipeline.CutWithinPaths | crates/ledger-explorer/src/certs.rs:1039-1064 | a minimal cut has at most as many members as there are paths, so the verifier's member limit follows from its path limit |
| Pipeline.SolverCutIsAccepted | crates/ledger-explorer/src/certs.rs:877-950 | a cheapest cut of a journal's encoding, from either engine and under any fault limit, meets every acceptance condition of the verifier |
| Pipeline.SolveAndVerify | crates/ledger-explorer/src/certs.rs:998-1066 | encode, solve, record and verify with the builtin engine: encoding succeeds exactly when there is something to blame, the solver fails only past its budgets, where prices overflow or where no cut respects the limit, and whenever its cut respects the limit it is a cheapest list of events that breaks every derivation and, if the paths fit, the verifier accepts |
| Pipeline.SolveExactAndVerify | crates/ledger-explorer/src/certs.rs:998-1066 | the same with the SAT-backed engine: it fails if and only if no set of events within the fault limit breaks every derivation, and otherwise its cut is a cheapest such list and the verifier accepts whenever the paths fit |
| Linearizability.Search.Find | crates/ledger-explorer/src/oracle.rs:297-346 | true if and only if some legal order extends the current prefix; on false both bookkeeping vectors are restored, the first recorded failure is kept, and with acyclic predecessors there is one: a legal prefix and a ready operation the specification rejects |
| Linearizability.Search.RecordFailure | crates/ledger-explorer/src/oracle.rs:326-344 | what is recorded is the current legal prefix with the first ready operation the specification rejects; nothing is recorded only if every ready operation is accepted |
| LinOracle.KeyValueAccepts | crates/ledger-explorer/src/oracle.rs:210-229 | a history is accepted if and only if every read returns the value of the last preceding write to its key, or zero |
| LinOracle.Predecessors | crates/ledger-explorer/src/oracle.rs:381-388 | the table lists exactly the operations whose response happens before the invocation |
| LinOracle.PrecedesIsPast | crates/ledger-explorer/src/oracle.rs:381-388 | over a journal grown by appends, an operation precedes another if and only if its response lies strictly in the past of the other's invocation |
| LinOracle.WellFormedIsPast | crates/ledger-journal/src/clock.rs:94-109 | and a history is well formed if and only if each invocation is in its response's past |
| LinOracle.RealTimeIsAcyclic | crates/ledger-journal/src/clock.rs:100-109 | the real-time order of a well-formed history under strict vector-clock order is acyclic |
| LinOracle.CheckOperations | crates/ledger-explorer/src/oracle.rs:353-422 | within the size bound the oracle passes exactly the linearizable recorded histories, reports the first missing entry exactly when one is missing, and on a well-formed history a violation names the two entries of an operation that is ready after a legal prefix and rejected |
| Workflow.ScanStepEvidence | crates/ledger-flow/src/workflow.rs:333-365 | the loop folds exactly the actor's entries, last begin per name and last end per begin |
| Workflow.EvidenceOfSteps | crates/ledger-flow/src/workflow.rs:333-365 | only step entries are evidence, whatever else the actor appends |
| Workflow.EvidenceIs | crates/ledger-flow/src/workflow.rs:333-365 | the scan of a disciplined log finds exactly its begins and its ends |
| StepHistory.BeginMeans | crates/ledger-flow/src/workflow.rs:333-365 | in any journal, the begin on record for a name is the actor's latest begin of that name |
| StepHistory.EndMeans | crates/ledger-flow/src/workflow.rs:333-365 | in any journal, the result on record for a begin is that of the actor's latest end whose first parent it is |
| StepHistory.ClassifyMeans | crates/ledger-flow/src/workflow.rs:321-365 | in any journal, a step without a begin is pending; one whose latest begin has an end is completed with the latest such end's result; one whose latest begin has none is in progress at it |
| StepHistory.CompletedMeans | crates/ledger-flow/src/workflow.rs:163-187 | in any journal, recovery lists, in order, the name and result of every end of the actor whose first parent is a known begin, and nothing else |
| StepHistory.AttemptCounts | crates/ledger-flow/src/workflow.rs:115-132 | from any numbered journal, disciplined or not, an attempt keeps every step entry carrying the number of begins before it, and the counter equal to the number of begins |
| StepHistory.RunCounts | crates/ledger-flow/src/workflow.rs:115-187 | over whole runs, clean or not and whatever fails, every step entry carries the number of begins before it |
| Workflow.ClassifyPlan | crates/ledger-flow/src/workflow.rs:321-329 | under the discipline paired steps are completed with their result, the open one is in progress, the rest pending |
| Workflow.MatchesShape | crates/ledger-flow/src/workflow.rs:195-243 | the step entries of a disciplined log are begin, end, begin, end in plan order, with at most one trailing begin |
| Workflow.RecoveredIs | crates/ledger-flow/src/workflow.rs:163-187 | recovery reads back the number of begins and the completed steps in plan order |
| Workflow.ScanCompleted | crates/ledger-flow/src/workflow.rs:163-187 | the recovery loop lists exactly the ends of the actor whose first parent is a recorded begin, in order |
| Workflow.BeginKeepsDiscipline | crates/ledger-flow/src/workflow.rs:115-132 | a begin for the next step with any unused address keeps the discipline |
| Workflow.EndKeepsDiscipline | crates/ledger-flow/src/workflow.rs:135-156 | an end for the open step keeps the discipline |
| Workflow.EndPairsIffHead | crates/ledger-flow/src/workflow.rs:351-360 | an end pairs with the begin it names if and only if that begin is still the actor's head, and is otherwise booked on the head |
| Resume.MakePlan | crates/ledger-flow/src/workflow.rs:59-67 | a plan is refused if and only if a name repeats, with the first repeat reported |
| Resume.WorkflowExecution.constructor | crates/ledger-flow/src/workflow.rs:93-100 | a new workflow has counted, completed, planned and run nothing |
| Resume.WorkflowExecution.RecoverFromJournal | crates/ledger-flow/src/workflow.rs:163-187 | recovery ends in the state that mirrors the journal |
| Resume.WorkflowExecution.SetPlan | crates/ledger-flow/src/workflow.rs:105-107 | replaces the plan |
| Resume.WorkflowExecution.RecordBegin | crates/ledger-flow/src/workflow.rs:115-132 | a failed append changes nothing; a successful one adds exactly the begin entry and counts it |
| Resume.WorkflowExecution.RecordEnd | crates/ledger-flow/src/workflow.rs:135-156 | a failed append changes nothing; a successful one adds exactly the end entry and the completed step |
| Resume.WorkflowExecution.Turn | crates/ledger-flow/src/workflow.rs:210-239 | one planned step by its prior status: skipped with its result, rerun below its begin, or begun and executed; `Resume.AttemptKeeps` says that a step that ran ends with what its effect returned |
| Resume.WorkflowExecution.Resume | crates/ledger-flow/src/workflow.rs:195-243 | from any journal and any state in memory it does what `Attempt` says, whose meaning `Resume.ResumeKeeps` gives; without a plan it fails and changes nothing |
| Resume.FailureStays | crates/ledger-flow/src/workflow.rs:195-243 | after a failure nothing more is run or appended |
| Resume.StandsIffMirrors | crates/ledger-flow/src/workflow.rs:163-187 | under the discipline, counter and completed steps are right if and only if they equal what recovery computes |
| Resume.AttemptKeeps | crates/ledger-flow/src/workflow.rs:195-243 | from a disciplined journal, after any number of planned steps: the paired ones were skipped with their recorded result, the open one rerun and the others executed in plan order, each of these reported and recorded with the value its own effect call returned; a failed attempt stopped at a step whose effect failed or whose begin or end could not be appended; discipline and mirror hold |
| Resume.ResumeKeeps | crates/ledger-flow/src/workflow.rs:195-243 | wherever an attempt fails, the discipline and the mirror hold after it; it succeeds if and only if the whole plan is paired, reports skipped, rerun and executed steps correctly with what their effects returned, runs effects in plan order from the first unpaired step, at most one of them unpaired; a paired plan runs nothing and appends nothing |
| Episodes.NoiseDecides | crates/ledger-flow/src/workflow.rs:351-360 | entries between attempts keep the discipline unless the actor's own land behind an open begin; then that step is lost |
| Episodes.LostAttempt | crates/ledger-flow/src/workflow.rs:195-243 | no attempt ever pairs a lost step |
| Episodes.LostRunsAgain | crates/ledger-flow/src/workflow.rs:195-243 | an attempt that succeeds runs a lost step's effect again and reports it as a rerun |
| Episodes.LostBreaksMirror | crates/ledger-flow/src/workflow.rs:163-187 | and then leaves a state in memory that recovery does not give back |
| Episodes.RunEpisodes | crates/ledger-flow/src/workflow.rs:195-243 | recovering and resuming over any number of attempts, with any failures and any entries in between, yields exactly the run the theorems below speak of |
| Episodes.CleanKeepsOrder | crates/ledger-flow/src/workflow.rs:195-243 | while the actor appends nothing of its own behind an open begin, every journal of the run is disciplined |
| Episodes.LostForever | crates/ledger-flow/src/workflow.rs:195-243 | a step lost in some episode stays lost in all later ones |
| Episodes.UncleanLoses | crates/ledger-flow/src/workflow.rs:351-360 | an own entry behind an open begin loses a planned step, for good |
| Episodes.OkMeansPairedIffClean | crates/ledger-flow/src/workflow.rs:195-243 | over whole runs, a resume that returned Ok has paired the whole plan if and only if the actor never appended an entry of its own behind an open begin |
| Episodes.UncleanRunsAgain | crates/ledger-flow/src/workflow.rs:195-243 | otherwise every later Ok runs the lost effect again, reports a rerun and breaks the mirror |
| Episodes.WorkingAttempt | crates/ledger-flow/src/workflow.rs:195-243 | when every effect and every append succeeds, a resume returns Ok from any journal |
| Episodes.OneEntryIsEnough | crates/ledger-flow/src/workflow.rs:135-156 | one own entry behind an open begin and nothing but success after it: Ok is returned, the step is rerun and is still open |
| Episodes.BegunStep | crates/ledger-flow/src/workflow.rs:115-132 | such a journal exists |
| Episodes.BooksOnHead | crates/ledger-flow/src/workflow.rs:135-156 | the rerun of a lost step books its result on the actor's head |
| Episodes.WrongResult | crates/ledger-flow/src/workflow.rs:351-360 | so another open step whose effect has just failed counts as completed with the lost step's result |
| Episodes.WrongResultReached | crates/ledger-flow/src/workflow.rs:351-360 | two failing attempts from a journal with a lost step reach that state |
| Episodes.OkIsFinal | crates/ledger-flow/src/workflow.rs:195-243 | over whole runs, once an attempt of a clean run has returned Ok, every later one appends nothing, runs no effect and reports the same results as skipped, whatever the actor appends from then on |
| Episodes.PairedIsFinal | crates/ledger-flow/src/workflow.rs:195-243 | over whole clean runs, once a step is paired it keeps its result and its effect never runs again |
| Episodes.PairedHasRun | crates/ledger-flow/src/workflow.rs:195-243 | over whole clean runs, a paired step's effect ran in an earlier attempt, and the step is paired with what that call returned |
| Spans.KahnEmission | crates/ledger-adapters/src/otel.rs:149-185 | the table and heap loops emit the least ready span at every step until none is ready |
| Spans.EmissionUnique | crates/ledger-adapters/src/otel.rs:149-185 | the emission order is determined by the batch |
| Spans.EmissionOrdered | crates/ledger-adapters/src/otel.rs:149-185 | no span is emitted twice and each comes after its bound parent |
| Spans.EmittedIffRooted | crates/ledger-adapters/src/otel.rs:149-185 | a span is emitted if and only if its parent chain ends at a root |
| Spans.TopoOrderSpans | crates/ledger-adapters/src/otel.rs:130-147 | the order is always a permutation: the emission, then the rest in input order |
| SpanJournal.BuildJournal | crates/ledger-adapters/src/otel.rs:410-463 | for any emission order the journal is the emitted spans laid out one after the other: each span's entry, below the entry before it and the entry its parent's id was bound to, then its events below it, and nothing else; it is causal and parent-closed |
| SpanJournal.EdgeIffFirst | crates/ledger-adapters/src/otel.rs:434-436 | a bound parent's entry is a journal parent of its child's entry if and only if it was the first of its id, or nothing was appended between the two |
| SpanJournal.EdgeIsLost | crates/ledger-adapters/src/otel.rs:434-436 | a four-span batch that the called ingest accepts and whose journal lacks a bound parent edge |
| SpanJournal.Ingest | crates/ledger-adapters/src/otel.rs:397-463 | a batch is refused if and only if some parent chain never reaches a root; an accepted one is laid out in full, and keeps every bound edge as a journal parent if and only if no bound parent is both late for its id and separated from its child; with distinct ids it keeps them all |
| Keys.ComputeKey | crates/ledger-explorer/src/solver_cache.rs:107-165 | the hasher is fed exactly the layout |
| Keys.HorizonByLength | crates/ledger-explorer/src/solver_cache.rs:107-165 | the total length modulo eight tells an absent horizon from a present one |
| Keys.KeyInjective | crates/ledger-explorer/src/solver_cache.rs:107-165 | equal key bytes mean equal closure, engine tag and configuration |
| Keys.FingerprintInjective | crates/ledger-explorer/src/solver_state.rs:166-250 | equal fingerprint bytes mean equal configuration and engine |
| MemoKeys.VariantRoundTrip | crates/ledger-explorer/src/memo.rs:76-142 | decoding the canonical bytes gives back policy, swarm and faults |
| MemoKeys.AttemptCollisions | crates/ledger-explorer/src/memo.rs:145-186 | two attempts share key bytes if and only if they are equal or one is the other's replay disguised as an input hash |
| MemoKeys.CampaignCollisions | crates/ledger-explorer/src/memo.rs:145-186 | with a digest that tells the variants apart, two campaign attempts share a key if and only if their variants are equal and the attempts equal or disguised |
| MemoKeys.DeceptiveHasDouble | crates/ledger-explorer/src/memo.rs:145-186 | an attempt without input hash has a double with one if and only if its replay is deceptive |
| MemoKeys.DeceptiveExample | crates/ledger-explorer/src/memo.rs:145-186 | a four-decision replay that has one |
| Network.SharedNet.Send | crates/ldgr-rt/src/net.rs:48-66 | refused if and only if the link is cut, and then nothing changes; otherwise the message is queued last |
| Network.SharedNet.Recv | crates/ldgr-rt/src/net.rs:69-79 | takes the oldest message of the link out of the queue, leaving the rest in order, and returns its payload, or nothing exactly when the link is empty |
| Network.SharedNet.RecvFor | crates/ldgr-rt/src/net.rs:140-143 | takes the oldest message addressed to the actor out of the queue, leaving the rest in order, and returns its payload, or nothing exactly when there is none |
| Network.SharedNet.Partition | crates/ldgr-rt/src/net.rs:92-101 | cuts one directed link and touches no queued message |
| Network.StepConserves | crates/ldgr-rt/src/net.rs:48-143 | one operation conserves every link's payloads in order |
| Network.RunConserves | crates/ldgr-rt/src/net.rs:48-143 | in every interleaving and on every link, what was queued and accepted is what was delivered followed by what is queued, in order |
| Network.RunConservesTo | crates/ldgr-rt/src/net.rs:48-143 | in every interleaving that takes an actor's messages through `RecvFor` only, what was queued and accepted for the actor is what was delivered to it followed by what is queued, in order across all senders |
| Network.PartitionedAcceptsNothing | crates/ldgr-rt/src/net.rs:92-101 | after a partition no run accepts anything on that link |
| Monitors.MonitorOracle.Step | crates/ledger-explorer/src/monitor.rs:82-102 | feeding a delta halts with the first report in journal and monitor order, if and only if there is one, and otherwise leaves each monitor where the delta takes it |
| Monitors.MonitorOracle.Check | crates/ledger-explorer/src/monitor.rs:118-175 | the verdict lists every entry-time halt in order and then the quiescence halts; the witnesses are one entry per halt, in journal order, or the last entry when only quiescence halts, and none when the journal passes; the warnings likewise are every warning spoken, in order |
| Monitors.SaidIsAccounted | crates/ledger-explorer/src/monitor.rs:129-158 | what is listed corresponds one to one, in journal and then monitor order, to the entries and monitors that spoke |
| Monitors.WitnessIffHalted | crates/ledger-explorer/src/monitor.rs:129-158 | when some entry is halted on, an entry is a witness if and only if some monitor halts on it; when none is, only the last entry can be one; a passing journal has none |
| Monitors.LivenessSays | crates/ledger-explorer/src/monitor.rs:254-275 | on any entry of a journal, a liveness monitor halts if the stretch without the expected kind that ends there is longer than the gap, warns if it is as long, and is silent otherwise |
| Monitors.LivenessSettles | crates/ledger-explorer/src/monitor.rs:277-292 | and so at quiescence by the stretch at the end of the journal, except that a gap of zero never warns |
| Monitors.SafetySays | crates/ledger-explorer/src/monitor.rs:204-220 | a safety monitor halts with its message on exactly the entries that break the invariant, and says nothing else, at quiescence neither |
| Monitors.DeltaIsGrowth | crates/ledger-explorer/src/monitor.rs:36-53 | what is fed next is exactly what the journal has grown by |
| Monitors.Quiet | crates/ledger-explorer/src/monitor.rs:129-142 | the list of halts is empty if and only if no monitor halts on any entry |
| Monitors.OnlineIsReplay | crates/ledger-explorer/src/monitor.rs:36-53 | for any monitors and any way to cut the journal into deltas, the run halts if and only if the replay finds a halt, and with its first report |
| Monitors.CounterIsTail | crates/ledger-explorer/src/monitor.rs:254-275 | the liveness counter is the length of the trailing run without the expected kind |
| Monitors.HaltsMean | crates/ledger-explorer/src/monitor.rs:204-275 | a liveness monitor halts if and only if some stretch longer than the gap lacks the kind; a safety monitor if and only if some entry breaks the invariant |
| Monitors.QuiescenceAddsNothing | crates/ledger-explorer/src/monitor.rs:277-292 | at quiescence a built-in monitor halts only if it already halted on the last entry |
| Monitors.VerdictIsOnline | crates/ledger-explorer/src/monitor.rs:118-175 | with built-in monitors a journal is flagged if and only if the step-by-step run halts, with the same first reason |

## Left out

- Hazard.EncodeHazard: past the cell budget only soundness is stated; which paths the walk keeps then is not modelled.
- Lineage.LineageIndex.Build: past the node budget the clauses are only said to come from chains of the witnesses; which chains are kept, and the closure, are not.
- Threshold.SolveIncremental: every literal must be priced, as the source's variable lookup requires, and the price sum must fit 64 bits; the 32-bit numbering of solver variables is not modelled.
- BranchAndBound.SolveWithBudget: which searches run out of nodes is bounded by the size of the whole clause tree, not decided exactly, because pruning depends on the incumbents met on the way.
- Certificates.CheckBinding: the root hash is a parameter, and the identity gate and the other statement fields are not modelled.
- Episodes.OkMeansPairedIffClean: between attempts the actor may append anything but step entries, and addresses are not reused; the engine alone records steps.
- Rebuild.SilentRefresh: silence is enough but not necessary; the exact condition is `Fronts.RefreshIffFronts`.
- Rebuild.SilentRefreshWithin: the same; the exact condition is `Fronts.RefreshIffShown`.
- Pipeline.SolveExactAndVerify: five times the journal's length must fit 64 bits, which bounds the price sum the engine adds up.
- SpanJournal.Ingest: content dedup, attribute and size limits, the fidelity check for missing parents, span names and the mapping list are not modelled.
- Store.DurableJournal.Append: sequence numbers and payload canonicality are not modelled, and vector clocks are computed from the journal (`Clocks.ClockOf`) and not stored; a new address is the model's choice of an unused one, and a store failure is a parameter.
- Clocks.ClockTells: counts are unbounded; saturation at 64 bits is not modelled.
- Monitors.MonitorOracle.Check: rendered sentences and the joined reason text are replaced by the parts they are made of.
- Certificate JSON, predicate types, and the emission and parsing of statements: plumbing that one branch settles.
- `encode_hazard_with_support` and `build_with_support`: the same encoder fed from a support provider.
- The older hitting-set engine, the state artifact codec and its resume: easier members beside the two engines.
- `SupportExpr::canonical_bytes` and `clauses_hash`: their layouts carry no lengths, so nothing is claimed of them.
- `resume_async`: the same state machine with awaits.
- The simulator, its scheduler, clocks and timed network, sockets, the command line and statistics.
- Mutex poisoning and wake-ups of the in-process network, and its two read-only queries.
