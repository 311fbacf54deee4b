# SmartExecutor: a verified model of its decision logic

SmartExecutor guides symbolic execution of smart contracts towards the functions that a plain search does
not cover. This project models the deterministic code that takes its decisions and proves what that code
keeps, reaches and preserves. `dafny verify dfyconfig.toml` checks everything.

Code that works by changing fields and lists is modelled by classes and loops. Each method is proved
against a declarative description, and the main results are lemmas about these descriptions.

**Dispatcher masking.** `Instructions`, `Grouping`, `InstructionModification`, `Dispatcher`,
`DispatcherMasking`, `DispatcherPatching`, `Machine`, `DispatcherTheorem`, `DispatcherExample`, `Erasure`,
`DupErasure`. A dispatcher is a tree of compare blocks and GT splits that is flattened to instructions. The
real grouping and masking loops run on any instruction list; for well-formed dispatchers a small stack machine shows that masking preserves the
dispatch of kept functions and blocks all others. The source compares the number of selected names with the
number of known functions, so "fallback" or repeated names can leave unselected functions executable; the
exact condition is proved. Which instructions of any list are erased, JUMPDESTs among them, is told from
the list alone and exactly.

**Function write/read graph.** `Merge`, `Combining`, `Detours`, `UpdateFwrg`, `AcyclicPaths`, `FwrgManager`. Bounded
path enumeration, including the list that a self-call of a start function changes while it is iterated, the
two-index merge that adds combining edges, and the list of unreachable deep functions. The merge promises
one walk through two paths. It keeps the promise for nested paths and for paths whose shared functions occur
in the same order, and for some others; the exact condition on two paths is proved. For paths of the same
order the added edges are told exactly, and the walks may take the facing stretches in any order.

**Guided scheduler.** `FunctionAssignment`, `Filtering`, `Selection`, `TieBreak`, `Mine`, `GuidedRun`,
`Guider`, `GuidedDispatch`, `Traversals`, `SeqStrategy`. Which functions are assigned, which states are kept
and picked, and whole runs against an engine that answers with any finite list of successors: every run ends
without the iteration cap, and every key is executed once. `GuidedDispatch` joins the scheduler with the
masking: the state that goes to the engine is the saved one, and its code enters exactly the assigned
functions, unless names that are not known make the list so long that nothing is masked.

**Keccak.** `Intervals`, `Keccak`, `KeccakConsistency`. The generated conditions always have a
model, and in every model hashes keep their parts of the 256-bit space and their spread of 64.

**Storage.** `Storage`. The lazily loaded array agrees with a plain overlay of writes over the chain under
every valuation of symbolic keys. Reads at symbolic indices load nothing, and the exact condition under
which they are right is proved.

**Memory, gas and code.** `Memory`, `MachineState`, `Disassembler`. Memory mirrors a zero-initialised byte
array, gas telescopes, and the linear sweep finds the valid jump destinations. Where the code differs from
the Yellow Paper (an empty range extends memory) the model follows the code. The metadata trailer is cut off
when the printed form of the last 43 bytes contains `bzzr`; a byte printed in hexadecimal that ends in `b`
completes the word as well, and the model says so.

**Model cache.** `Lru`. Smaller caches are always included in larger ones.

## Model

| member | source | states |
|---|---|---|
| Grouping.ScanKeepsInvariant | fdg/instruction_modification.py:187-238 | for every instruction list, the groups formed so far concatenate back to the scanned part, recorded JUMPDESTs open their group at their offset, and the first CALLDATALOAD stays in a group that no function owns |
| Grouping.LiveLandmarks | fdg/instruction_modification.py:343-356 | after masking, a CALLDATALOAD that precedes every recorded JUMPDEST is live, so no backward scan can run past the front of the list |
| Grouping.MaskingIsLocal | fdg/instruction_modification.py:314-362 | masking keeps the number of instructions and the address at every index, erases only masked groups and DUP1s, and leaves the rest of the code alone |
| Erasure.GroupedExactly | fdg/instruction_modification.py:187-212 | told from the list alone: the scan succeeds if and only if no PUSH without argument is looked at, and it ends at the first JUMPDEST that is the revert block |
| Erasure.ErasedExactly | fdg/instruction_modification.py:297-362 | apart from DUP1s, masking erases exactly the instructions in front of the end whose owning selector is not kept and whose group holds no GT; everything else stays |
| Erasure.JumpdestErasedExactly | fdg/instruction_modification.py:208-229 | a JUMPDEST is erased by some selection if and only if it lies in the GT-less group of a selector with a CALLDATASIZE behind the last CALLDATALOAD, and then by exactly the selections without that selector |
| Erasure.JumpdestsSurvive | fdg/instruction_modification.py:187-216 | without a CALLDATASIZE behind a CALLDATALOAD inside the dispatcher no JUMPDEST of the whole list is ever erased, whatever the function bodies hold |
| Erasure.SecondSizeErasesJumpdest | fdg/instruction_modification.py:190-191 | an instance of the failing case: a list with such a CALLDATASIZE loses a JUMPDEST |
| Erasure.UnopenedFollows | fdg/instruction_modification.py:198-205 | a selector that opens no group, such as one pushed by PUSH2, is erased if and only if the selector in whose group it lies is not kept, even when it is selected itself; outside such groups it stays |
| Erasure.OpensExactly | fdg/instruction_modification.py:143-205 | in instructions: the group of a function opens exactly at a PUSH of three or four bytes right behind a DUP1, behind a CALLDATALOAD without a CALLDATASIZE since, unless it pushes ffffffff; three bytes stand for a leading zero byte |
| DupErasure.DupErasedExactly | fdg/instruction_modification.py:329-356 | a DUP1 of any list is erased exactly when it goes with its group or everything behind it is gone up to a dispatcher JUMPDEST or the end, so together with ErasedExactly every erased instruction is told from the list |
| DispatcherTheorem.DispatcherJumpdestsSurvive | fdg/instruction_modification.py:187-247 | masking a well-formed dispatcher erases no JUMPDEST, of the dispatcher or of the functions, for any selection |
| InstructionModification.InstructionModification.constructor | fdg/instruction_modification.py:13-24 | a new object knows its selectors and has no groups |
| InstructionModification.InstructionModification.FeedInstructions | fdg/instruction_modification.py:187-247 | the flag-driven loop fills groups, owners, GT positions and JUMPDESTs as the declarative scan describes; it fails exactly where a PUSH without argument is looked at; an object that is fed again adds to the selectors, JUMPDESTs and groups of the earlier list |
| InstructionModification.InstructionModification.Visit | fdg/instruction_modification.py:187-229 | one instruction moves the fields and the two local variables by one step of the scan |
| InstructionModification.InstructionModification.VisitPush | fdg/instruction_modification.py:193-205 | a PUSH names the revert block, or opens a group for a selector that follows a DUP1 |
| InstructionModification.InstructionModification.RecordPosition | fdg/instruction_modification.py:143-157 | a new position is filed under its selector and starts empty |
| InstructionModification.InstructionModification.RecordJumpdest | fdg/instruction_modification.py:213-216 | a JUMPDEST opens a group and is remembered with its offset |
| InstructionModification.InstructionModification.Finish | fdg/instruction_modification.py:234-247 | the rest of the list is the last group, and the owned positions are collected |
| InstructionModification.InstructionModification.NotKept | fdg/instruction_modification.py:305-314 | a position is masked exactly when a function owns it, that function is not selected and the group holds no GT |
| InstructionModification.InstructionModification.CombineGroups | fdg/instruction_modification.py:316-327 | groups are concatenated, masked ones as EMPTY instructions at the same addresses |
| InstructionModification.PatchTail | fdg/instruction_modification.py:331-339 | a DUP1 that is the last live instruction is erased |
| InstructionModification.PatchJumpdests | fdg/instruction_modification.py:343-356 | for each recorded JUMPDEST the DUP1 that is the last live instruction before it is erased, and every backward scan stays at or behind the CALLDATALOAD |
| InstructionModification.BackwardScan | fdg/instruction_modification.py:345-356 | the live instruction a backward scan stops at is the one that the declarative patching changes for this JUMPDEST |
| InstructionModification.InstructionModification.GetModifiedInstructions | fdg/instruction_modification.py:297-362 | the in-place rewriting computes the declarative masked code |
| InstructionModification.InstructionModification.ModifyOnMultipleStates | fdg/instruction_modification.py:268-295 | every state gets the original list when it is asked for or as many names as known functions are given, and otherwise the code masked for the selected functions with their selectors beside it |
| InstructionModification.SelectorsInOrder | fdg/instruction_modification.py:283-287 | one selector for each known name other than the fallback, in the order of the names |
| InstructionModification.OthersSelectNothing | fdg/instruction_modification.py:283-287 | the fallback and unknown names select nothing, whatever selector is recorded |
| InstructionModification.FallbackCountsAsSelected | fdg/instruction_modification.py:277-290 | the length test counts "fallback", so one selected function of two leaves the other executable |
| DispatcherMasking.ScanTokens | fdg/instruction_modification.py:187-229 | in front of every token of a well-formed dispatcher the scan has combined exactly the tokens before it, masked as their selectors demand |
| DispatcherMasking.ScanWhole | fdg/instruction_modification.py:187-247 | the scan of a well-formed dispatcher ends at its revert block |
| DispatcherPatching.DupIsPatched | fdg/instruction_modification.py:331-356 | a DUP1 is patched away exactly when no unmasked block consumes it |
| DispatcherPatching.PatchedToken | fdg/instruction_modification.py:329-356 | after patching every token is rendered with a DUP1 that is used or with none |
| DispatcherPatching.MaskedListRenders | fdg/instruction_modification.py:297-362 | the code that is installed is the prologue, the rendered tokens and the untouched rest |
| Machine.ExitIsUnique | mythril/laser/ethereum/instructions.py:285-351 | the stack machine leaves the dispatcher in one state at most |
| Machine.JumpFinds | mythril/laser/ethereum/instructions.py:1589-1625 | a jump to the address of a JUMPDEST lands on that instruction |
| DispatcherTheorem.StepCompare | mythril/laser/ethereum/instructions.py:1627-1717 | a compare block jumps to its function exactly when the function is kept and the selector matches |
| DispatcherTheorem.StepSplit | mythril/laser/ethereum/instructions.py:1627-1717 | a GT split goes left exactly for selectors below its pivot, with the stack it found |
| DispatcherTheorem.StepExit | mythril/laser/ethereum/instructions.py:1589-1625 | a jump to the revert block is taken, or was erased together with its group and passes control on |
| DispatcherTheorem.FallsThrough | fdg/instruction_modification.py:297-362 | a selector that no kept block answers ends at the revert block, wherever in the dispatcher it is |
| DispatcherTheorem.Descends | fdg/instruction_modification.py:297-362 | a kept selector of a subtree finds its way from the front of the subtree to its function |
| DispatcherTheorem.LoadedDispatch | fdg/instruction_modification.py:297-362 | code that renders the tokens sends each selector to its destination and restores the stack |
| DispatcherTheorem.MaskingPreservesDispatch | fdg/instruction_modification.py:297-362 | for every dispatcher, every set of kept functions and every selector: the masked code sends kept selectors to the entry and stack of the original code, and all others to the revert block with only the selector left |
| DispatcherTheorem.UnselectedIsBlocked | fdg/instruction_modification.py:268-295 | for all lists of names, an unselected function is blocked if and only if the list is shorter than the number of known functions and does not ask for the original code |
| DispatcherTheorem.OriginalByName | fdg/instruction_modification.py:268-275 | the name for the original code leaves the code as it is, however many functions are known |
| DispatcherExample.ExampleIsWellFormed | fdg/instruction_modification.py:187-247 | a concrete dispatcher with a split, two functions and a jump to the revert block is well-formed |
| DispatcherExample.ExampleIsMasked | fdg/instruction_modification.py:297-362 | in it, keeping one function leaves its selector its entry and sends the other to the revert block |
| FwrgManager.Readers | fdg/fwrg_manager.py:18-32 | the functions that read one of the written slots, each once and with the slots that it reads |
| FwrgManager.GenerateFwrg | fdg/fwrg_manager.py:18-32 | an edge leads from each function to exactly the functions that read in a condition what it writes, labelled with these slots |
| FwrgManager.GenerateFrwg | fdg/fwrg_manager.py:34-47 | every reading function gets exactly the functions that write what it reads |
| FwrgManager.InverseTurnsAround | fdg/fwrg_manager.py:34-47 | the inverse graph has the edges of the graph turned around |
| AcyclicPaths.ExtendPath | fdg/fwrg_manager.py:81-100 | the loop over the children of one path, including the path that a self-call of a lone start changes while it is iterated |
| AcyclicPaths.NextLevel | fdg/fwrg_manager.py:81-100 | what one level adds to the finished paths and to the next level |
| AcyclicPaths.DerivePaths | fdg/fwrg_manager.py:77-101 | the levels up to the limit hold exactly the paths described by `Explored` |
| AcyclicPaths.AcyclicPath.GetPath | fdg/fwrg_manager.py:66-105 | every start function gets its paths |
| AcyclicPaths.StorePath | fdg/fwrg_manager.py:107-120 | a path joins its length class unless it is there already |
| AcyclicPaths.OrganizePaths | fdg/fwrg_manager.py:107-120 | a prefix is stored for a deep function exactly when it is cut from an enumerated path at that function |
| AcyclicPaths.AcyclicPath.StoredLeads | fdg/fwrg_manager.py:66-120 | stored paths are exactly those by which a start leads to the deep function, self-calls of starts included |
| AcyclicPaths.NoSelfCalls | fdg/fwrg_manager.py:66-120 | for a start without self-call these are exactly the simple paths of 2 to limit functions |
| AcyclicPaths.WalkHasPath | fdg/fwrg_manager.py:66-120 | every walk contains a simple path between its ends that is no longer |
| AcyclicPaths.UnreachableExactly | fdg/fwrg_manager.py:276-284 | nothing is stored for a deep function if and only if no other start reaches it by a walk of at most limit functions and it is not itself a start that calls itself |
| UpdateFwrg.UpdateFwrg.ConstructTargets | fdg/fwrg_manager.py:152-166 | the new graph has exactly the edges of stored paths |
| UpdateFwrg.UpdateFwrg.AddEdges | fdg/fwrg_manager.py:251-274 | no edge is lost, every pair of paths to one deep function has its combining edges, for paths of one length in the order of their list, every new edge comes from such a pair, and no child is listed twice |
| UpdateFwrg.UpdateFwrg.AddPair | fdg/fwrg_manager.py:261-274 | pairs of which one contains the other add nothing, others their detour edges |
| Detours.EdgesExactly | fdg/fwrg_manager.py:198-270 | for paths of the same order, disjoint and nested ones included, the added edges are exactly those from the end of a stretch of own functions to the start of the stretch of the other path that faces it, in both directions |
| Detours.AnyOrderWalks | fdg/fwrg_manager.py:198-270 | with these edges the facing stretches can be walked in any order: for every choice of the places where the other path goes first there is a walk through both paths |
| Detours.DisjointWalks | fdg/fwrg_manager.py:264-270 | two disjoint paths can be walked one behind the other in either order, from either start |
| UpdateFwrg.UpdateFwrg.FacingAreJoined | fdg/fwrg_manager.py:251-274 | the augmented graph joins all facing stretches of stored paths of the same order, in both directions |
| UpdateFwrg.UpdateFwrg.WalkedInAnyOrder | fdg/fwrg_manager.py:251-274 | stored paths of the same order are walked in the augmented graph with their facing stretches in any order |
| UpdateFwrg.UpdateFwrg.DisjointAreWalked | fdg/fwrg_manager.py:264-270 | stored disjoint paths are walked in the augmented graph one behind the other, from either start |
| UpdateFwrg.UpdateFwrg.IdentifyNotReachable | fdg/fwrg_manager.py:276-284 | lists exactly the deep functions without a stored path |
| Merge.BelongRelation | fdg/fwrg_manager.py:175-184 | whether the shorter path has only functions of the longer |
| Merge.CommonElements | fdg/fwrg_manager.py:186-196 | the functions of the shorter path that are in the longer, in order |
| Merge.FindEdges | fdg/fwrg_manager.py:198-249 | the two-index merge with its marks and the loop variable that survives its loops computes the declarative scan |
| Merge.ScanSecond | fdg/fwrg_manager.py:219-236 | the inner loop ends on the shared function, on the last index, or keeps the stale loop variable |
| Merge.FindStretch | fdg/fwrg_manager.py:211-249 | the scan of one stretch between shared functions adds the edges of the detour and of all later stretches |
| Merge.MergedCovers | fdg/fwrg_manager.py:198-249 | the merged sequence visits every function of both rests |
| Merge.MergedWalks | fdg/fwrg_manager.py:198-249 | once the edges of the scan are there, the merge is a walk, whichever stretch goes first at every place |
| Merge.PairMerges | fdg/fwrg_manager.py:175-274 | for nested and disjoint paths and for paths whose shared functions occur in the same order, one walk from a start of one of them visits every function of both and is no longer than both |
| Merge.ReversedOrderFails | fdg/fwrg_manager.py:198-249 | an instance of the failing case: for a, b, x and b, a, y no edge is added and no walk to the deep function has both ends |
| Combining.PairCombines | fdg/fwrg_manager.py:175-274 | any two combinable paths are visited by one walk from a start of one of them once the edges of the pair are there |
| Combining.CombinesExactly | fdg/fwrg_manager.py:175-274 | the graph of two paths and their added edges has a walk through all functions of both if and only if the paths are combinable: the scan of the shorter path loses no shared function, or the first one it loses follows a function of its own, or no two own functions behind it have the same shared functions behind them |
| Combining.OrderedAreCombinable | fdg/fwrg_manager.py:175-249 | paths of the same order and nested paths in any order are combinable |
| Combining.DoubledAreCombinable | fdg/fwrg_manager.py:198-249 | paths of starts that call themselves are combinable when they have the same order apart from doubled starts, unless only the shorter one doubles a start that both have |
| Combining.ShorterDoubledFails | fdg/fwrg_manager.py:198-249 | an instance of that exception, for which no covering walk exists |
| Combining.OneOrderOnly | fdg/fwrg_manager.py:198-249 | an instance of two paths of one length that are combinable in one order only |
| UpdateFwrg.UpdateFwrg.CombinableAreCombined | fdg/fwrg_manager.py:251-274 | combinable paths were combined; the order of the pair matters only for paths of one length, and is that of their list |
| UpdateFwrg.UpdateFwrg.CombinedWalk | fdg/fwrg_manager.py:168-274 | any two stored paths whose edges were added in an order in which they are combinable are visited by one walk of the augmented graph |
| FwrgManager.FwrgManager.constructor | fdg/fwrg_manager.py:286-294 | the graph, its inverse, the graph over all reads, the paths and the augmented graph are built from each other in the order of the source |
| FwrgManager.FwrgManager.CombinesPaths | fdg/fwrg_manager.py:286-294 | end to end: two paths by which starts lead to a deep function, combinable in the order in which they are paired if they have one length, are combined by one walk of the augmented graph |
| FwrgManager.FwrgManager.ListedInOrder | fdg/fwrg_manager.py:107-120 | of two paths of one length to the same deep function one is listed in front of the other, so every pair has its order |
| FwrgManager.FwrgManager.CombinesOrdered | fdg/fwrg_manager.py:286-294 | end to end for starts that call themselves: the same order apart from doubled starts is enough, unless the shorter path, or the first listed of one length, doubles a start that the other has undoubled |
| FwrgManager.FwrgManager.StoredAreSimple | fdg/fwrg_manager.py:66-120 | every stored path repeats at most its start and has its deep function at the end only, so that the exact condition applies to all of them |
| FwrgManager.FwrgManager.ListedAreUnreachable | fdg/fwrg_manager.py:276-284 | the list of unreachable deep functions holds exactly those that no other start reaches by a walk within the limit and that are not starts that call themselves |
| Intervals.IntervalFits | mythril/laser/ethereum/function_managers/keccak_function_manager.py:24-26 | an interval does not wrap around and ends inside the 256-bit space |
| Intervals.IntervalsDisjoint | mythril/laser/ethereum/function_managers/keccak_function_manager.py:179-189 | intervals of different allocations never meet |
| Keccak.KeccakFunctionManager.Reset | mythril/laser/ethereum/function_managers/keccak_function_manager.py:53-61 | everything is forgotten but the index counter |
| Keccak.KeccakFunctionManager.SetData | mythril/laser/ethereum/function_managers/keccak_function_manager.py:63-69 | the data of an earlier copy is taken over without rewinding the index counter |
| Keccak.KeccakFunctionManager.GetFunction | mythril/laser/ethereum/function_managers/keccak_function_manager.py:85-99 | a size gets its functions and its empty list of results once |
| Keccak.KeccakFunctionManager.CreateKeccak | mythril/laser/ethereum/function_managers/keccak_function_manager.py:110-137 | concrete data is hashed and remembered, symbolic data is filed as an input of its size and its hash as a result of this size |
| Keccak.KeccakFunctionManager.CreateConditions | mythril/laser/ethereum/function_managers/keccak_function_manager.py:139-153 | the conjunction holds in exactly the interpretations that meet the demands on all inputs, and every size has an interval |
| Keccak.KeccakFunctionManager.CreateCondition | mythril/laser/ethereum/function_managers/keccak_function_manager.py:173-205 | the demand on one input: the inverse leads back, and the hash is a multiple of 64 in the interval of the size or equals a concrete one |
| Keccak.KeccakFunctionManager.IntervalIndex | mythril/laser/ethereum/function_managers/keccak_function_manager.py:179-184 | a new size takes the next index |
| Keccak.KeccakFunctionManager.ConcreteCondition | mythril/laser/ethereum/function_managers/keccak_function_manager.py:197-204 | the disjunction over concrete inputs of the same size |
| Keccak.IntervalsOfSizes | mythril/laser/ethereum/function_managers/keccak_function_manager.py:179-189 | two sizes that have intervals have disjoint ones |
| Intervals.PartSize | mythril/laser/ethereum/function_managers/keccak_function_manager.py:24-26 | the size of a part and the index of every allocation in numbers |
| KeccakConsistency.UnusedHash | mythril/laser/ethereum/function_managers/keccak_function_manager.py:191-196 | while fewer hashes are taken than an interval has multiples of 64, one of them is free |
| KeccakConsistency.DemandsAreSatisfiable | mythril/laser/ethereum/function_managers/keccak_function_manager.py:139-205 | for every valuation of the symbols and every finite set of concrete inputs without collisions there are hash and inverse functions that meet all demands, nested hashes included |
| KeccakConsistency.ConditionsAreSatisfiable | mythril/laser/ethereum/function_managers/keccak_function_manager.py:139-153 | hence the condition that the manager creates is never contradictory |
| KeccakConsistency.DemandedExactly | mythril/laser/ethereum/function_managers/keccak_function_manager.py:173-205 | the demands in numbers, as an equivalence: inverses lead back; the hash of a symbolic input is a multiple of 64 between index * PART and index * PART + PART, or it is the known hash of a concrete input that it equals; concrete inputs have their known hashes |
| KeccakConsistency.HashesAreAligned | mythril/laser/ethereum/function_managers/keccak_function_manager.py:191-196 | in every interpretation that meets the created condition, a symbolic input that equals no concrete one has a hash that is a multiple of 64 in the part of its size |
| KeccakConsistency.EqualInputsHaveKnownHash | mythril/laser/ethereum/function_managers/keccak_function_manager.py:197-205 | a symbolic input that equals a concrete one has its known hash |
| KeccakConsistency.HashesAreInjective | mythril/laser/ethereum/function_managers/keccak_function_manager.py:173-205 | in every model equal hashes of one size come from equal inputs |
| KeccakConsistency.HashesOfSizesDiffer | mythril/laser/ethereum/function_managers/keccak_function_manager.py:179-196 | in every model symbolic inputs of different sizes have different hashes, unless one equals a concrete input |
| KeccakConsistency.RunsAreSound | mythril/laser/ethereum/function_managers/keccak_function_manager.py:43-69 | any mix of allocation, reset and restoring an earlier copy keeps indices distinct and accounted for |
| KeccakConsistency.IntervalsStayApart | mythril/laser/ethereum/function_managers/keccak_function_manager.py:43-69 | after any such mix with at most 10^10 allocations intervals are disjoint, in range and hold a multiple of 64 |
| FunctionAssignment.LayerIsWalks | fdg/control/function_assignment.py:31-43 | the k-th frontier holds exactly the ends of walks of k edges |
| FunctionAssignment.Frontier | fdg/control/function_assignment.py:35-42 | one round of the frontier loop |
| FunctionAssignment.CanReachTargets | fdg/control/function_assignment.py:24-45 | true if and only if a walk of at most the given number of edges ends in a target |
| FunctionAssignment.TargetsInOneStep | fdg/control/function_assignment.py:47-65 | with depth one: the targets among the function and its children, each once |
| FunctionAssignment.FunctionAssignment.constructor | fdg/control/function_assignment.py:10-22 | all budgets start at zero, also that of the fallback |
| FunctionAssignment.RecordCounts | fdg/control/function_assignment.py:103-106 | the count of a known function grows by the number of its mentions |
| FunctionAssignment.FunctionAssignment.RecordAssignment | fdg/control/function_assignment.py:103-106 | every function handed out is counted once per mention, and no other count changes |
| FunctionAssignment.FunctionAssignment.AssignFunctions | fdg/control/function_assignment.py:115-182 | exactly the chosen functions are handed out; when the graph lists no child twice none is handed out twice and the count of each grows by one |
| FunctionAssignment.FunctionAssignment.NotReachable | fdg/control/function_assignment.py:184-200 | the deep functions without a path that are under their budget |
| FunctionAssignment.ChosenAreExtendable | fdg/control/function_assignment.py:115-200 | below the length limit the chosen functions are exactly the children that extend to a sequence within the limit ending in a deep function with budget left, plus the under-budget ones without a path, and no repeated ones |
| Filtering.SortDownSorts | fdg/control/mine.py:280-281 | the stable sort is a descending permutation |
| Filtering.BucketIsPrefixGroup | fdg/control/mine.py:248-261 | a bucket holds exactly the queued states of its prefix, in queue order, and excluded prefixes have none |
| Filtering.KeepProperties | fdg/control/mine.py:280-293 | thinning keeps a part of the bucket, all of it up to three states, every set of last writes, and is idempotent |
| Filtering.FilteringKeeps | fdg/control/mine.py:233-293 | the result is a sub-multiset of the queue that keeps every pair of executed functions and last writes that is not excluded, and every group of at most three states |
| Filtering.FilteringIsIdempotent | fdg/control/mine.py:233-293 | filtering again changes nothing, not even the order |
| Filtering.KeepExactly | fdg/control/mine.py:280-293 | of a bucket, sorted by how many slots were written last, the first three are kept and every one whose last writes differ from those in front |
| Filtering.GroupIsKept | fdg/control/mine.py:248-293 | in the filtered queue every group is the thinned group, and excluded groups are gone |
| Filtering.GroupsAreThin | fdg/control/mine.py:263-293 | upper bounds: from the fourth on the states of one sequence wrote other slots than the one in front, at most three stay when all wrote the same, they stand by the number of slots, and none stays of an excluded sequence |
| Filtering.ExcludedByName | fdg/control/mine.py:250-256 | excluded are the sequences whose joined text begins and ends with "fallback" or ends with "fallback#fallback" |
| Mine.Mine.FilterStates | fdg/control/mine.py:233-293 | the loops leave exactly the filtered queue |
| Mine.Mine.ThinGroup | fdg/control/mine.py:266-293 | one bucket: three states, then those that write differently from the last kept one |
| Mine.Mine.UpdateStates | fdg/control/mine.py:176-231 | saving a batch: states of the constructor are remembered but not queued |
| Mine.SavedHistory | fdg/control/mine.py:199-219 | a new state has the writes of its parent at every depth, and its own last writes at its own |
| Mine.SavedIsSound | fdg/control/mine.py:176-231 | every queued key keeps its state, its storage and its writes, and is queued once |
| Mine.QueuedIsLabelled | fdg/control/mine.py:176-231 | the state saved under a queued key has executed the functions of the key |
| Mine.SavedExactly | fdg/control/mine.py:176-231 | a batch of different keys is remembered state by state: storage, and behind deployment the state and its history of writes; nothing under another key changes |
| Mine.LastWritesAre | fdg/control/mine.py:199-219 | the last writes are the slots that the state wrote at its depth, each once |
| Mine.QueuedIsThin | fdg/control/mine.py:176-293 | whenever states are taken in, the queue satisfies the upper bounds of the filter |
| Selection.Evaluate | fdg/control/mine.py:307-325 | the score of a list of written slots: each target adds the share of its read slots that were written |
| Selection.ScoreGrows | fdg/control/mine.py:307-325 | writing more slots never lowers the score, which lies between zero and the number of targets |
| Selection.ScoreOfOne | fdg/control/mine.py:307-325 | one target scores the number of its read slots that were written, divided by the number of its read slots |
| Selection.ScoreAdds | fdg/control/mine.py:307-325 | a further target adds its own score, a repeated one nothing |
| Selection.NewRecentWrites | fdg/control/mine.py:373-386 | the last writes that no other depth wrote |
| Selection.ReachedCount | fdg/control/mine.py:487-492 | how many targets are reached in one step |
| Selection.OrderIsTotal | fdg/control/mine.py:372-532 | any two states are comparable, and mutual comparison means five ties |
| Selection.OrderInNumbers | fdg/control/mine.py:301-532 | the order in numbers: score of the storage, number of new recent slots, score of the recent slots, shorter sequence, number of targets reached in one step |
| Selection.BestLeads | fdg/control/mine.py:422-503 | keeping only the candidates with the best next value keeps the lexicographic leaders |
| TieBreak.KeepHighest | fdg/control/mine.py:427-438 | sorting and keeping those equal to the first leaves exactly the candidates with the largest value |
| TieBreak.SortScored | fdg/control/mine.py:353-355 | sorting pairs of keys and scores is sorting the keys by score |
| TieBreak.BreakByNewRecentWrites | fdg/control/mine.py:422-445 | the candidates with most new recent writes |
| TieBreak.BreakByRecentWrites | fdg/control/mine.py:447-471 | the candidates with the best score of recent writes |
| TieBreak.BreakByDepth | fdg/control/mine.py:473-485 | the candidates with the shortest sequences |
| TieBreak.BreakByReached | fdg/control/mine.py:487-503 | the candidates that reach most targets; all of them when none reaches any |
| TieBreak.BreakATie | fdg/control/mine.py:372-532 | the winner is beaten by no candidate in any of the five values, lexicographically, whatever the random choice |
| Mine.Choose | fdg/control/mine.py:353-370 | the position handed back through the sorted lists is that of a lexicographic maximum of the whole queue |
| Mine.Mine.PickUpAState | fdg/control/mine.py:301-370 | exactly the picked key leaves the queue, the rest is permuted, and no queued state is ahead of it |
| Mine.Mine.AssignBest | fdg/control/mine.py:97-116 | keys are picked until one has functions to execute; skipped keys have none |
| Mine.Mine.AssignStates | fdg/control/mine.py:68-116 | the whole call: nothing without deep functions, the only state of a single start with all functions (or a failure on an empty queue), and otherwise the best state with exactly its chosen functions |
| Guider.Guider.OrganizeStates | fdg/control/guider.py:40-56 | states at the limit are dropped, the others get fresh numbers |
| GuidedRun.OrganizedKeys | fdg/control/guider.py:40-56 | new keys carry consecutive numbers and the sequences of their states |
| GuidedRun.OrganizedExactly | fdg/control/guider.py:40-56 | every state below the limit gets its key, numbered in order, and there are no other keys |
| Guider.Guider.SaveGenesisStates | fdg/control/guider.py:210-217 | the states after deployment are saved without being queued, and the first key becomes the parent; without a key it fails |
| Guider.Guider.StartIteration | fdg/control/guider.py:115-139 | iteration 2 hands over the states after deployment; later ones are an `Advance`: the one prepared state is the very state saved under the key that the strategy picked, with its chosen functions, each once; without one, every waiting state was idle |
| Guider.Guider.Guide | fdg/control/guider.py:121-169 | the part for iterations after the second: it picks as the strategy demands, hands over the state that came with this key or was saved under it before, and is a `Step` of the run when the states are successors of the executed one |
| Guider.AfterAssignment | fdg/control/guider.py:121-169 | whatever is assigned, keys stay apart, short and labelled, and the assigned key is known and gone from the queue |
| Guider.AssignedIsSaved | fdg/control/guider.py:130-135 | the state of the assigned key is the one that came with this key in the new states, or else the one saved before |
| GuidedDispatch.EnteredExactly | fdg/instruction_modification.py:268-295 | with the code for any list of names, a known function of any well-formed dispatcher is entered if and only if it is in the list, or the list is as long as that of the known functions or asks for the original code |
| GuidedDispatch.ListedAreEntered | fdg/instruction_modification.py:268-295 | with a list of known names without repetition exactly the listed functions are entered |
| GuidedDispatch.PrepareState | fdg/control/guider.py:150-158 | the copy that goes to the engine has the code for the assigned functions; the saved state keeps its own |
| GuidedDispatch.PrepareIteration | fdg/control/guider.py:121-162 | end to end: the state that goes to the engine is the one saved under the picked key; its code enters a known function if and only if the function was assigned, without exception when all assignable functions are known; the assigned ones are exactly those that can still reach a target |
| GuidedRun.StepIsOrderly | fdg/control/guider.py:121-169 | every iteration keeps the keys apart and their sequences below the limit |
| GuidedRun.CountsFall | fdg/control/guider.py:121-169 | the counts of keys by sequence length fall lexicographically, shortest first |
| GuidedRun.RunsEnd | fdg/control/guider.py:121-169 | for every engine, every run reaches an iteration that hands out nothing |
| GuidedRun.EachKeyOnce | fdg/control/guider.py:121-169 | no key is executed twice and no sequence that waits or is executed reaches the limit |
| Traversals.Bfs.AssignStates | fdg/control/ftn_search_strategy.py:219-283 | the oldest key with functions to execute is taken with exactly these functions; older ones had none |
| Traversals.Bfs.Search | fdg/control/ftn_search_strategy.py:260-283 | the loop over the queue |
| Traversals.Dfs.AssignStates | fdg/control/ftn_search_strategy.py:137-191 | the newest key with functions to execute is taken with exactly these functions; newer ones had none |
| Traversals.Dfs.Search | fdg/control/ftn_search_strategy.py:167-191 | the loop over the stack |
| Traversals.TraversalsAdvance | fdg/control/ftn_search_strategy.py:137-283 | both strategies advance the guided phase, so their runs end as well |
| Traversals.PushedKeys | fdg/control/ftn_search_strategy.py:137-283 | exactly the keys below the limit join the queue, each as often as it comes |
| Traversals.RecordedStates | fdg/control/ftn_search_strategy.py:137-283 | exactly the states below the limit are saved, each under its key |
| SeqStrategy.Seq.AssignStates | fdg/control/ftn_search_strategy.py:70-110 | new keys join the queue, keys are taken up to the first that stops the call, and states are deleted exactly when there is one |
| SeqStrategy.Seq.FirstFunctions | fdg/control/ftn_search_strategy.py:92-95 | the first functions of all sequences; none, or a failure on an empty sequence |
| SeqStrategy.Seq.Extending | fdg/control/ftn_search_strategy.py:97-108 | the next functions of the sequences that properly extend the executed one |
| SeqStrategy.ContinuationsAreTrie | fdg/control/ftn_search_strategy.py:97-108 | a function is scheduled after a sequence if and only if the longer sequence is a prefix of a user sequence |
| SeqStrategy.OneForEach | fdg/control/ftn_search_strategy.py:97-108 | one function is listed for every user sequence that properly extends the executed one |
| SeqStrategy.KeptExactly | fdg/control/ftn_search_strategy.py:70-90 | the states of every new key join those kept under it, and the others stay |
| SeqStrategy.OnlyIdleAreSkipped | fdg/control/ftn_search_strategy.py:89-110 | keys passed over have no continuation, and the outcome belongs to the last key taken |
| SeqStrategy.EveryKeyOnce | fdg/control/ftn_search_strategy.py:70-110 | over any feed, keys are taken once and in order, and the calls hand out exactly what the taken keys ask for |
| SeqStrategy.WalksTheTrie | fdg/control/ftn_search_strategy.py:70-110 | every key that comes back from the engine is on the trie of user sequences |
| Storage.Storage.constructor | mythril/laser/ethereum/state/account.py:21-41 | a concrete storage starts as zeros unless storage is unconstrained, and otherwise as an unknown array |
| Storage.Storage.GetItem | mythril/laser/ethereum/state/account.py:43-75 | under every valuation a read gives the latest matching write, else the loaded word, else the initial array; at a concrete index with a chain that answers it gives the latest write or the on-chain word |
| Storage.Storage.Fetch | mythril/laser/ethereum/state/account.py:66-67 | the loaded word is guarded by every key written so far, in any order |
| Storage.Storage.SetItem | mythril/laser/ethereum/state/account.py:77-87 | a write joins the history, whether its key is concrete or symbolic |
| Storage.Storage.DeepCopy | mythril/laser/ethereum/state/account.py:89-99 | a fresh object with the same contents |
| Storage.LatestOfKey | mythril/laser/ethereum/state/account.py:43-87 | a latest write exists exactly when some written key evaluates to the index |
| Storage.WriteAgrees | mythril/laser/ethereum/state/account.py:77-87 | a write keeps the agreement of the array with the plain overlay |
| Storage.LoadAgrees | mythril/laser/ethereum/state/account.py:54-71 | loading keeps the agreement: the word shows only where no write does |
| Storage.FlagsAreWords | mythril/laser/ethereum/state/account.py:77-87 | a truth value is stored as one exactly where it is true, and as zero elsewhere |
| Storage.StoredReadsBack | mythril/laser/ethereum/state/account.py:77-87 | whatever was written before, the index just written holds what was written |
| Storage.OthersShow | mythril/laser/ethereum/state/account.py:43-87 | a write changes nothing under other indices; without writes the word on chain shows, or the initial array |
| Storage.ConcreteReadIsExpected | mythril/laser/ethereum/state/account.py:43-75 | a loaded index holds the latest write or the on-chain word |
| Storage.SymbolicReadIsExpected | mythril/laser/ethereum/state/account.py:43-75 | a symbolic read is right if and only if its index was written or loaded, or the initial array holds the on-chain word |
| Storage.SymbolicReadMisses | mythril/laser/ethereum/state/account.py:49-50 | a fresh concrete storage read at a symbol gives zero where the chain holds seven |
| Memory.BytesRoundTrip | mythril/laser/ethereum/util.py:145-155 | the big-endian bytes of a word give the word back |
| Memory.Memory.SetByte | mythril/laser/ethereum/state/memory.py:253-261 | one byte changes if the signed bounds test lets it through |
| Memory.Memory.LandsExactly | mythril/laser/ethereum/state/memory.py:255-256 | in numbers: addresses and size from 2^255 on count as negative |
| Memory.Memory.GetSlice | mythril/laser/ethereum/state/memory.py:186-212 | the cells of a range of addresses that may wrap around |
| Memory.Memory.SetSlice | mythril/laser/ethereum/state/memory.py:224-251 | exactly the cells of the range that pass the bounds test change |
| Memory.Memory.GetWordAt | mythril/laser/ethereum/state/memory.py:84-134 | the big-endian word of 32 cells, as a number or as a concatenation; zero when joining symbolic bytes raises |
| Memory.Memory.WriteWordAt | mythril/laser/ethereum/state/memory.py:137-168 | cell j gets byte j of the word, for known numbers and for symbolic words written from the low end |
| Memory.Memory.Copy | mythril/laser/ethereum/state/memory.py:44-48 | a fresh memory with the same cells and size |
| MachineState.ExtensionIsGrowth | mythril/laser/ethereum/state/machine_state.py:132-146 | the extension is what the largest range so far needs, in whole words |
| MachineState.ChargeInNumbers | mythril/laser/ethereum/state/machine_state.py:132-164 | an access costs three for every further word and the growth of the 512th part of the square of the words |
| MachineState.GasTelescopes | mythril/laser/ethereum/state/machine_state.py:148-164 | the gas of any accesses is the cost of the final words minus that of the initial ones |
| MachineState.GrownIsLargest | mythril/laser/ethereum/state/machine_state.py:132-191 | memory never shrinks, covers every access, and is no larger than the start or one access needs |
| MachineState.OrderDoesNotMatter | mythril/laser/ethereum/state/machine_state.py:132-191 | permuting the accesses changes neither the final size nor the total gas |
| MachineState.EmptyRangeExtends | mythril/laser/ethereum/state/machine_state.py:139-146 | the size agrees with the Yellow Paper if and only if the range is not empty or its start is covered |
| MachineState.PaidMemoryIsSmall | mythril/laser/ethereum/state/memory.py:255-256 | memory whose cost fits a 256-bit gas limit ends below the sign bit of addresses |
| MachineState.CoveredLands | mythril/laser/ethereum/state/memory.py:255-256 | no write inside such memory is dropped by the signed bounds test |
| MachineState.MachineState.MemExtend | mythril/laser/ethereum/state/machine_state.py:171-191 | charges the difference of costs, then fails without extending or extends to whole words that cover the range |
| MachineState.MachineState.MemoryWrite | mythril/laser/ethereum/state/machine_state.py:193-200 | after extension all bytes reach the plain array |
| MachineState.MachineState.StoreWord | mythril/laser/ethereum/instructions.py:1522-1538 | a word store reaches the plain array unless gas runs out; then the bytes that fit into the old memory are still written |
| MachineState.MachineState.StoreByte | mythril/laser/ethereum/instructions.py:1541-1561 | a byte store writes the low byte |
| MachineState.MachineState.LoadWord | mythril/laser/ethereum/instructions.py:1507-1519 | a word load is the big-endian word of a zero-initialised byte array after all writes so far, overlaps included, unless joining symbolic bytes raises |
| MachineState.WordRoundTrip | mythril/laser/ethereum/state/memory.py:137-168 | a word read back where it was just written is the word |
| MachineState.BytesReadBack | mythril/laser/ethereum/state/machine_state.py:193-200 | single bytes show at their distance from the offset modulo 2^256, and nothing else changes |
| MachineState.WordStaysInside | mythril/laser/ethereum/state/memory.py:137-168 | a word changes nothing outside its 32 bytes |
| Lru.LRUCache.Get | mythril/support/support_utils.py:39-45 | a hit moves to the end, a miss gives -1 and changes nothing |
| Lru.LRUCache.Put | mythril/support/support_utils.py:47-53 | the key moves to the end, the oldest is dropped when there is no room; a cache without room fails |
| Lru.ApplyFits | mythril/support/support_utils.py:34-53 | keys stay distinct and no cache outgrows its capacity |
| Lru.SmallerIsIncluded | mythril/support/support_utils.py:34-53 | for capacities 1 <= n <= m and any history, the smaller cache is a subsequence, in order of use and with equal values, of the larger |
| Lru.HitsAreShared | mythril/support/support_utils.py:39-45 | a key in the smaller cache is in the larger with the same value |
| Lru.CacheIsRecent | mythril/support/support_utils.py:34-53 | after any history the cache holds exactly the most recently used keys, a hit counting as a use, each with the value put last |
| Lru.PutThenGet | mythril/support/support_utils.py:39-53 | a get right after a put gives the value |
| Disassembler.Disassemble | mythril/disassembler/asm.py:99-148 | the loop computes the declarative sweep |
| Disassembler.SweepCovers | mythril/disassembler/asm.py:125-148 | the instructions tile the swept bytes with strictly increasing addresses, each the one its byte names |
| Disassembler.AssemblyGivesCode | mythril/disassembler/asm.py:99-148 | assembled again, the instructions give the bytes of the code up to the end of the last push; invalid are exactly 0xfe and the bytes that name no instruction |
| Disassembler.SweptExactly | mythril/disassembler/asm.py:108-121 | 43 bytes are left out at the end exactly when the printed form of the last 43 contains the mark |
| Disassembler.JumpdestsAreValid | mythril/disassembler/asm.py:125-148 | the addresses of JUMPDESTs are exactly the valid destinations of the whole code, by section 9.4.3 of the Yellow Paper, that lie in the swept bytes |
| Disassembler.GetInstructionIndex | mythril/laser/ethereum/util.py:47-61 | the loop finds the least index whose address is not below the given one |
| Instructions.InstructionIndex | mythril/laser/ethereum/util.py:47-61 | all instructions before the index are below the address; without an index all are |
| Disassembler.IndexOfAddress | mythril/laser/ethereum/util.py:47-61 | in a disassembly an instruction address has its own index and an address inside push data that of the next instruction |
| Disassembler.MaskingKeepsIndices | fdg/instruction_modification.py:297-362 | masking changes no lookup |

## Left out

- Dispatcher: well-formedness fixes the shape that the compiler emits, with selectors pushed by PUSH3 or PUSH4 behind a DUP1, an EQ or GT, a destination and a JUMPI; selectors with two leading zero bytes, ffffffff and dispatchers with a second CALLDATASIZE are not well-formed. What masking does to such lists is told by `Erasure`, without the run of the stack machine.
- Machine: no gas, and values are unbounded naturals, which the instructions of a dispatcher cannot tell from 256-bit words; JUMPI on symbolic conditions forks in the original and is evaluated here.
- InstructionModification.InstructionModification.FeedInstructions: positions are a set and selectors are byte strings, where the source keeps a list and hexadecimal text.
- InstructionModification.InstructionModification.GetModifiedInstructions: speaks of an object that was fed once, as the source does; what masking makes of an object that was fed twice is left out.
- Graphs: maps to lists of children; the order of dictionaries is arbitrary where the source iterates over written slots.
- AcyclicPaths.UnreachableExactly: the self-call of a start is part of the condition, because a lone start that calls itself is stored doubled.
- Keccak: terms are values, symbols, hash applications and opaque operators over other terms; simplification, model extraction and the hash function itself are left out (hashes of concrete data are an uninterpreted function).
- Keccak.KeccakFunctionManager.SetData: the source shares the dictionaries of the copy, the model copies them.
- FunctionAssignment: the option to follow all reads, which also extends the lists of the augmented graph in place, is left out.
- State keys are pairs of functions and a number, where the source joins them with "#" into text; names without "#" are read back as written.
- Mine: timeout variants, random selection of functions and printing are left out; the last tie break is an arbitrary choice, and scores are exact rationals.
- Mine.Mine.AssignStates: the order inside a list of written slots is unspecified in the source (it comes from a set) and arbitrary here.
- Guider: one object per strategy; the model follows the guided strategy, and Traversals and SeqStrategy model the other strategies without the outer step. Coverage thresholds and the iteration cap, which only end a run earlier, are left out.
- GuidedDispatch: different functions have different selectors, which the compiler sees to; the code that a world state carries is an input.
- Storage: simplification is any function that preserves values; a word on chain is a function of the index, which may fail; errors of the address format are left out.
- Memory: symbolic offsets and sizes are left out; whether joining symbolic bytes raises is an input.
- MachineState: the stack, the program counter and the gas of other instructions are left out; calls start with a fresh memory.
- Disassembler.Disassemble: takes bytes; decoding of hexadecimal text and code with symbolic bytes are left out, and an empty argument of a cut-off PUSH is not told from an absent one.
- Lru: the quick satisfiability check that walks the cache is left out.
- The engine, its solver, detection modules, reports and command line are left out.
