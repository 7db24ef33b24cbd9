# Models of some compiler bookkeeping in GCC, with proofs

Dafny models of seven places in GCC and fixincludes where bookkeeping has to agree with a simple picture of memory, registers
or counts, and proofs that it does, or exactly when it does.

- **Auto-increment formation** (`gcc/auto-inc-dec.c`): `Rtl.dfy` gives straight-line blocks a meaning over registers and memory.
  `AutoIncTable` is the decision table, `AutoIncMerge` the four rewrites, `AutoIncArrays` the next-use, next-add and next-definition
  arrays, `AutoIncApprove`, `AutoIncPatch` and `AutoIncSearch` the tests, the array updates and the search, `AutoIncPass` the reverse
  scan with its restarts, `AutoIncChains` a condition on blocks under which it is right, `AutoIncChances` and `AutoIncComplete` which
  merges must be made, and `AutoIncOvertake` and `AutoIncLimits` show where a merge changes the meaning of a block.
- **Memory disambiguation** (`gcc/alias.c`): `Memref` compares address expressions, `AliasSets` is the table of alias sets with its
  incremental closure, `AliasTypes` and `AliasNesting` give types their alias sets on demand, `AliasHistory` shows in what order that
  fills the table, `AliasClasses`, `AliasKinds` and `AliasConflicts` say from the types alone which of them conflict, `BaseTerm` and
  `BaseTermExact` search a cyclic graph of values for the base of an address, and `BaseTermChoice` says which base is preferred.
- **AddressSanitizer** (`gcc/asan.c`, `gcc/asan.h`): `AsanBuffer` is the red zone buffer, `AsanFrame` and `AsanPoison` the prologue,
  `AsanEpilogue` and `AsanClean` the epilogue, `AsanMark` the mark expansion and `AsanCheck` the generated check.
- **Pool allocator** (`gcc/alloc-pool.h`): `PoolSteps` has the steps and the invariant, `PoolRuns` runs of operations, `PoolObject`
  the object.
- **AutoFDO** (`gcc/auto-profile.c`): `AutoFdoPropagate`, `AutoFdoSettles`, `AutoFdoCircuits` and `AutoFdoObject` propagate counts over the
  control flow graph; `AutoFdoReader` reads profiles, `AutoFdoFormat` has their layout and `AutoFdoStored` what is kept of them.
- **Attribute lists** (`gcc/attribs.c`) in `Attribs`, and **shell quoting** (`fixincludes/fixlib.c`) in `ShellQuote`.

Code that updates things in place is given twice: as a function of values, about which the theorems are stated, and as a class or
a method with loops whose contract ties it to that function.

## Where the code does not do what one might expect

- A `FORM_PRE_ADD` merge reached through the register added to leaves `reg_next_inc_use` of the result as it was. A later merge in
  the same scan can then take over an add to a value the register no longer has. A copy that `FORM_POST_ADD` puts in front of an
  access is not visited by the scan, so a later merge can move an add past it, which always changes the meaning of the block. Both
  need an earlier merge in the same scan; the whole-pass theorem says what excludes them.
- Alias sets of nested types need not conflict when a type in between has alias set 0, or when the canonical type of a record in
  between is raw storage although the record is not; `AliasConflicts` has the exact condition.
- The base term search can miss a base that a sum has turned down, and a base on the stack pointer at a value located only at
  itself.
- The red zone buffer loses bytes when a byte that does not follow directly falls into the window being filled; in frames this is
  a variable of 8 to 15 bytes that starts 16 bytes into a red zone.
- The propagation loop does not count what its circuit step does, so it can stop with work left.
- `make_raw_shell_str` writes beyond a buffer of size 0, and turns some strings away that would fit.

## Model

| member | source | states |
|---|---|---|
| `AutoIncTable.InitDecisionTable` | gcc/auto-inc-dec.c:195-306 | for every combination of target capabilities the filled table, entry by entry, is the decision rule `Decide`, including every entry left at nothing |
| `AutoIncTable.ConstantEntrySound` | gcc/auto-inc-dec.c:173-306 | for every target, access size, constant increment and displacement 0, plus or minus the increment: an entry that is not empty names an address form the target has, which accesses the same address and leaves the same base register as the separate add and access |
| `AutoIncTable.ConstantEntryComplete` | gcc/auto-inc-dec.c:173-306 | such an entry is empty exactly when nothing is added or the target has no form with that effect |
| `AutoIncTable.UncheckedDisplacement` | gcc/auto-inc-dec.c:933-1035 | without the displacement test made before the lookup the table would name a form that accesses another address (concrete target and displacement) |
| `AutoIncTable.RegisterEntries` | gcc/auto-inc-dec.c:195-306 | the same soundness for increments held in a register |
| `AutoIncApprove.GeneratedAdvances` | gcc/auto-inc-dec.c:693-815 | the address built from a table entry for an approved merge advances the base by the increment and reaches the address the access had |
| `AutoIncApprove.FindAddress` | gcc/auto-inc-dec.c:933-1035 | the operand found is the last one whose base and displacement suit, and none is found only when none suits |
| `AutoIncMerge.PreAddPreserves` | gcc/auto-inc-dec.c:457-684 | FORM_PRE_ADD: a copy and a pre-modify access in place of an add and a later access leave every register and all memory of every start state the same |
| `AutoIncMerge.PreIncPreserves` | gcc/auto-inc-dec.c:457-684 | the same for FORM_PRE_INC |
| `AutoIncMerge.PostIncPreserves` | gcc/auto-inc-dec.c:457-684 | the same for FORM_POST_INC |
| `AutoIncMerge.PostAddPreserves` | gcc/auto-inc-dec.c:457-684 | the same for FORM_POST_ADD, with the copy put in front of the access |
| `AutoIncApprove.PreApprovedPreserves` | gcc/auto-inc-dec.c:1048-1334 | a merge with the next use of the result that passes the tests of find_inc on sound arrays preserves the meaning of the block |
| `AutoIncApprove.SourceApprovedPreserves` | gcc/auto-inc-dec.c:1504-1600 | a merge through the register added to that passes the tests on sound arrays preserves the meaning of the block if and only if the access does not carry a leading copy of the result, a copy put there by an earlier FORM_POST_ADD |
| `AutoIncApprove.PostApprovedPreserves` | gcc/auto-inc-dec.c:1048-1334 | a merge of an access with a later add that passes the tests of find_inc on sound arrays preserves the meaning of the block |
| `AutoIncPass.MergeOnExactArrays` | gcc/auto-inc-dec.c:1454-1600 | on exact arrays an approved merge in any of the four forms, including the one through the register added to, preserves registers and memory of every run |
| `AutoIncArrays.EnterExact` | gcc/auto-inc-dec.c:1611-1642 | entering an instruction in the reverse scan keeps each array exact: next reader before any writer, that reader if it is an add, next writer |
| `AutoIncArrays.ExactIsSound` | gcc/auto-inc-dec.c:822-835 | exact arrays, as read through get_next_ref, are sound for the merge tests |
| `AutoIncPatch.PreIncPatched` | gcc/auto-inc-dec.c:592-614 | the array updates of a committed FORM_PRE_INC leave the arrays sound for the rewritten block |
| `AutoIncPatch.PreAddPatched` | gcc/auto-inc-dec.c:527-572 | those of FORM_PRE_ADD do so if and only if no add to the result was recorded, since that entry is not cleared |
| `AutoIncPatch.PreApprovedNoStaleAdd` | gcc/auto-inc-dec.c:1460-1502 | a merge found through the next use of the result never leaves such an entry |
| `AutoIncPatch.PostPatched` | gcc/auto-inc-dec.c:574-650 | those of the post forms, with the entry of the rewritten access, leave the arrays sound |
| `AutoIncSearch.FindResultUse` | gcc/auto-inc-dec.c:1460-1502 | the access found through the result is approved, and none is found only when none is; on exact arrays that is when the instructions have such an opportunity (AutoIncChances.MergesIffChance) |
| `AutoIncSearch.FindSourceUse` | gcc/auto-inc-dec.c:1504-1600 | the access found through the register added to is approved, and none is found only when none is |
| `AutoIncSearch.FindIncFrom` | gcc/auto-inc-dec.c:1341-1405 | the operand and add found for an access are approved, and none are found only when none are; on exact arrays that is when the instructions have such an opportunity (AutoIncChances.MergesIffChance), and the last operand that has one is taken (AutoIncChances.AccessMergeMade) |
| `AutoIncSearch.ResultMergeSound` | gcc/auto-inc-dec.c:1414-1663 | one merge through the result preserves meaning and leaves sound arrays and a well-formed block |
| `AutoIncSearch.SourceMergeSound` | gcc/auto-inc-dec.c:1414-1663 | one clean merge through the register added to does the same |
| `AutoIncSearch.PostMergeSound` | gcc/auto-inc-dec.c:1414-1663 | one merge of an access with a later add does the same |
| `AutoIncPass.ScanExact` | gcc/auto-inc-dec.c:1424-1646 | at every point of a scan from exact arrays, also of a scan that goes on to merge: if nothing has been merged so far the block is as it was and all three arrays are exact for the instructions behind the scan point |
| `AutoIncPass.FirstMergePreserves` | gcc/auto-inc-dec.c:1424-1646 | up to and including its first merge every scan of every block preserves the meaning of the block, with no condition on the block |
| `AutoIncPass.VisitPreservesIff` | gcc/auto-inc-dec.c:1454-1642 | on sound arrays one step of the scan preserves meaning if and only if it does not merge an add past a copy of its result |
| `AutoIncPass.ScanSplits` | gcc/auto-inc-dec.c:1424-1646 | a scan is what it does down to any point followed by the rest |
| `AutoIncPass.ScanCounts` | gcc/auto-inc-dec.c:1414-1663 | a scan leaves exactly one add less for each merge it reports, so the restarts of merge_in_block end |
| `AutoIncPass.VisitCounts` | gcc/auto-inc-dec.c:1454-1642 | one step of the scan removes one add if it merges and none otherwise |
| `AutoIncPass.MergePreservesMeaning` | gcc/auto-inc-dec.c:1414-1663 | the whole pass, over all its scans and restarts, preserves the meaning of every block on which every scan that merges more than once has only clean merges through the register added to: no copy of the result in front of the access, and no stale add entry left |
| `AutoIncChains.UnchainedPreservesMeaning` | gcc/auto-inc-dec.c:1414-1663 | on every target it preserves the meaning of every block in which the result of an add into another register is not added to anywhere, a condition on the instructions alone |
| `AutoIncPass.NoPostModifyPreservesMeaning` | gcc/auto-inc-dec.c:1414-1663 | on a target without post-modify addressing it preserves the meaning of every block |
| `AutoIncPass.MergeAgain` | gcc/auto-inc-dec.c:1651-1663 | a pass whose first scan merges something is the pass, started afresh, on the block that scan leaves |
| `AutoIncLimits.StaleEntryChangesMeaning` | gcc/auto-inc-dec.c:527-572 | a concrete block on which the entry left by FORM_PRE_ADD makes the pass change the final value of a register |
| `AutoIncLimits.OvertakenCopyChangesMeaning` | gcc/auto-inc-dec.c:616-650 | a concrete block on which the copy put in front of an access, which the scan has already passed, makes the pass change the final value of a register |
| `AutoIncOvertake.OvertakingChangesMeaning` | gcc/auto-inc-dec.c:616-650 | on every block in which the access carries a leading copy of the result, moving the add past that copy changes what some machine and start state compute |
| `AutoIncLimits.NoAdditionNoChange` | gcc/auto-inc-dec.c:1414-1663 | a block without adds is left alone |
| `AutoIncChances.TableNamesBest` | gcc/auto-inc-dec.c:173-306 | for every target, the form the table names is the best one that has the effect of the add and the access, a form that adds the access size before one that adds any constant; it names none exactly if there is none |
| `AutoIncChances.MergesIffChance` | gcc/auto-inc-dec.c:1454-1642 | before any merge a step of the scan merges something if and only if the instructions offer an opportunity, a relation read off the block alone: an add and an access to its result, or to the register added to, or an access and a later add, with no mention in between and a form of the target for it |
| `AutoIncChances.ResultMergeMade` | gcc/auto-inc-dec.c:1460-1502 | of an opportunity through the result the step makes exactly this merge, in the best form, before any other is tried |
| `AutoIncChances.SourceMergeMade` | gcc/auto-inc-dec.c:1504-1600 | where there is none, the merge through the register added to |
| `AutoIncChances.AccessMergeMade` | gcc/auto-inc-dec.c:1341-1405 | at an access the last operand with an opportunity takes over the add, in the best form |
| `AutoIncChances.ScannedIff` | gcc/auto-inc-dec.c:1424-1646 | a scan merges something if and only if the block offers an opportunity |
| `AutoIncChances.PassTakesAll` | gcc/auto-inc-dec.c:1414-1663 | the block the whole pass leaves offers no opportunity any more, and the pass leaves alone exactly the blocks that offer none |
| `AutoIncComplete.VisitComplete` | gcc/auto-inc-dec.c:1454-1642 | on sound arrays every step, also one that merges, keeps the arrays complete: the next reader, if it is an add, is recorded |
| `AutoIncComplete.LaterChanceTaken` | gcc/auto-inc-dec.c:1454-1642 | so at sound and complete arrays, whatever was merged before in the scan, a step takes the opportunity of its place |
| `AutoIncComplete.ScanTakesChance` | gcc/auto-inc-dec.c:1424-1646 | in a clean scan of any block every opportunity that the block offers when its place comes up is taken, also behind earlier merges |
| `AutoIncPass.Pass.constructor` | gcc/auto-inc-dec.c:1414-1424 | a scan starts from numbered instructions and cleared arrays |
| `AutoIncPass.Pass.EnterDefsOf` | gcc/auto-inc-dec.c:1617-1625 | the loop over the definitions updates the three arrays as specified |
| `AutoIncPass.Pass.EnterUsesOf` | gcc/auto-inc-dec.c:1627-1641 | so does the loop over the uses |
| `AutoIncPass.Pass.EnterInsn` | gcc/auto-inc-dec.c:1611-1642 | definitions are entered before uses |
| `AutoIncPass.Pass.VisitAdd` | gcc/auto-inc-dec.c:1454-1602 | the step for an add changes block and arrays in place as the step function says |
| `AutoIncPass.Pass.VisitOther` | gcc/auto-inc-dec.c:1603-1642 | so does the step for any other instruction |
| `AutoIncPass.Pass.ScanOnce` | gcc/auto-inc-dec.c:1424-1646 | the reverse loop is the scan function |
| `AutoIncPass.Pass.Merge` | gcc/auto-inc-dec.c:1414-1663 | the repeated scans leave the block of the pass function, to which the theorems apply: meaning is preserved as said in AutoIncPass.MergePreservesMeaning, and no opportunity is left (AutoIncChances.PassTakesAll) |
| `Memref.NoMeansDisjoint` | gcc/alias.c:2390-2644 | an answer 0 means disjoint bytes under every register valuation, with a negative size as its widened range; a reference of size 0 is never answered 0 |
| `Memref.YesMeansOverlap` | gcc/alias.c:2390-2644 | without ANDs and with sizes not 0 an answer 1 means a common byte under every register valuation |
| `Memref.MemrefsConflictSound` | gcc/alias.c:2390-2644 | both, for references with a top-level increment or decrement of the address register |
| `Memref.YesAfterAlignment` | gcc/alias.c:2571-2607 | with an AND an answer 1 can be wrong (concrete addresses) |
| `Memref.YesMeansNear` | gcc/alias.c:2571-2607 | for all addresses, with any ANDs: an answer 1 for sizes not 0 means that under every register valuation the references share a byte or come within the slack of the alignments looked through, the sum of their masks' low bits; without any the slack is 0 |
| `Memref.SameBaseDecided` | gcc/alias.c:2473-2537 | two displacements from one base are decided by the displacements alone, for every base expression |
| `Memref.DisplacedDecided` | gcc/alias.c:2473-2537 | two addresses at constant displacements from one base, however the constants are nested, are always decided, by their distance alone |
| `Memref.SharedBaseDecided` | gcc/alias.c:2473-2537 | where the base is one object the constants may also stand in front of it |
| `Memref.SharedBaseRemoved` | gcc/alias.c:2473-2525 | an address that adds something to the other one, as one object, is compared by what it adds |
| `Memref.ConstantInFront` | gcc/alias.c:2473-2525 | with the constant in front of a base that is not one object there is no answer |
| `Memref.AlignedDecided` | gcc/alias.c:2571-2588 | an aligned base against a displacement from the same base is always decided, by the range the alignment may move |
| `Memref.AlignedSecondDecided` | gcc/alias.c:2590-2607 | the same with the aligned address second |
| `Memref.EqualCommutes` | gcc/alias.c:1741-1880 | sums and ANDs are found equal with their operands exchanged |
| `Memref.CanonReplacesAll` | gcc/alias.c:1703-1734 | outside of ANDs the canonical form has no register left that has another known value |
| `Memref.ZeroSizeNeverNo` | gcc/alias.c:2352-2362 | unknown sizes are never answered 0 |
| `Memref.AnswerByDistance` | gcc/alias.c:2465-2468 | a round that answers does so by the distance of the two addresses |
| `Memref.RoundKeepsDistance` | gcc/alias.c:2473-2537 | a round that asks again keeps the distance, except through an alignment |
| `Memref.AlignedRound` | gcc/alias.c:2571-2607 | looking through an alignment AND asks about ranges that cover the original ones |
| `Memref.EqualEval` | gcc/alias.c:1741-1880 | expressions found equal have equal values |
| `Memref.Canon` | gcc/alias.c:1703-1734 | the canonical form has the same value in every environment that agrees with the known values |
| `Memref.SideEffectEvalCorrect` | gcc/alias.c:2317-2350 | the address computed for the n-th reference is the one reached by executing the references one after the other |
| `AliasSets.HistoryClosed` | gcc/alias.c:1137-1187 | after every history in which a set gains subsets only before it becomes a subset, the children of each set are reachability over the recorded edges, and the zero and pointer flags hold exactly when zero or a pointer set is reachable or the set is a pointer |
| `AliasSets.LateSubsetMissed` | gcc/alias.c:1137-1187 | without that order a reachable set can be missing (concrete history) |
| `AliasSets.RecordKeepsClosed` | gcc/alias.c:1137-1187 | recording a subset of a set that is nobody's subset keeps the closure |
| `AliasSets.RecordClosedIff` | gcc/alias.c:1137-1187 | recording any alias set below any other, cycles allowed, keeps the closure if and only if every other set that reaches the superset already reaches the subset |
| `AliasSets.MarkKeepsClosed` | gcc/alias.c:1101-1108 | marking a set that is nobody's subset as a pointer set keeps the closure |
| `AliasSets.MarkClosedIff` | gcc/alias.c:1101-1108 | marking any set as a pointer set keeps the closure if and only if every other set that reaches it already holds a pointer |
| `AliasSets.ConflictIsReachability` | gcc/alias.c:468-538 | the one-level conflict query answers the question about reachability |
| `AliasSets.SubsetIsReachability` | gcc/alias.c:404-465 | so does the subset query |
| `AliasSets.ConflictSymmetric` | gcc/alias.c:468-538 | the conflict query does not depend on the order of its arguments |
| `AliasSets.AliasTable.NewAliasSet` | gcc/alias.c:1115-1130 | a new number, with the table grown to hold it |
| `AliasSets.AliasTable.CopyChildren` | gcc/alias.c:1170-1180 | the loop over the children of the subset adds exactly those |
| `AliasSets.AliasTable.RecordAliasSubset` | gcc/alias.c:1137-1187 | the table becomes that of the recording function, also for a set recorded under itself |
| `AliasTypes.GetKeeps` | gcc/alias.c:830-1111 | every lookup, on every type and in every state of the memo fields, keeps the invariant: what is stored stays, and owners have their components recorded below them |
| `AliasHistory.GetTraced` | gcc/alias.c:830-1111 | what a lookup does to the table, whatever was looked up before and with any types half done, is a list of creations, markings and recordings in which a set gains subsets, or becomes a pointer set, only before it becomes a subset of another; every recorded edge goes from the alias set of a type to that of a component of it, and every marked set is that of a pointer type |
| `AliasHistory.FieldsTraced` | gcc/alias.c:1194-1261 | so is what recording the fields of a record type does, with the lookups in between |
| `AliasHistory.LookupsAreReachability` | gcc/alias.c:830-1111 | after every sequence of lookups the children, zero and pointer flags of the table are exactly reachability over the concrete edges from each type that has an alias set to its recorded components, with the alias sets of the pointer types as the pointer sets |
| `AliasConflicts.ConflictIffTypesConflict` | gcc/alias.c:468-538 | after every sequence of lookups that includes two types their alias sets conflict if and only if the types do, a relation read off the types alone: one of them aliases everything, their classes are the same or one is inside the other through components, or both hold pointers and the universal pointer is involved |
| `AliasConflicts.OrderDoesNotMatter` | gcc/alias.c:830-1111 | so the answer for two types depends neither on the order of the lookups nor on what else was looked up |
| `AliasConflicts.ReachesIff` | gcc/alias.c:1194-1261 | one class of types is inside another exactly if the alias set of the one is reachable from that of the other |
| `AliasConflicts.HoldsIff` | gcc/alias.c:1137-1187 | an alias set holds a pointer exactly if its class does |
| `AliasClasses.ResolveClass` | gcc/alias.c:830-1111 | the alias set of a type is that of the representative of its class, and 0 exactly if it has none |
| `AliasKinds.SetByKind` | gcc/alias.c:830-1111 | after any lookups that include a type: raw storage, structurally compared types other than pointers, arrays and vectors, incomplete types and function types have alias set 0, arrays and vectors that of their elements, pointers that of their rebuilt canonical type or of the universal pointer, and every other complete type one that no other type of such a kind has |
| `AliasTypes.FieldsKeep` | gcc/alias.c:1194-1261 | so does recording the fields of a record type one after the other |
| `AliasTypes.ComponentKeeps` | gcc/alias.c:1194-1261 | so does looking up one component and recording it, and the component is below the type afterwards |
| `AliasTypes.PointerKeeps` | gcc/alias.c:990-1079 | so does giving a pointer type its alias set, through the universal pointer or the rebuilt canonical pointer |
| `AliasTypes.ResolveStable` | gcc/alias.c:912-915 | the alias set of a type does not change when others are given theirs |
| `AliasNesting.NestedTypesConflict` | gcc/alias.c:830-1111 | whatever was looked up before and in whatever order: if one type is nested in another at any depth through addressable fields with alias sets not 0, of records whose canonical type is not raw storage, the two alias sets conflict in both orders, also with pointer fields recorded as the universal pointer |
| `AliasNesting.ZeroInBetween` | gcc/alias.c:830-1111 | with an alias set 0 in between they need not conflict (concrete types) |
| `AliasNesting.ChainLinked` | gcc/alias.c:1194-1261 | containment through any number of types links the alias sets |
| `AliasNesting.LinkedConflict` | gcc/alias.c:468-538 | linked alias sets conflict in both orders |
| `AliasNesting.FieldBelow` | gcc/alias.c:1194-1261 | the alias set of an addressable field, or of the universal pointer for a pointer field across units, is below that of its record |
| `AliasNesting.LookupsKeep` | gcc/alias.c:830-1111 | the invariant holds after every sequence of lookups, and every type looked up has its alias set |
| `AliasNesting.LookupAgain` | gcc/alias.c:912-915 | a second lookup returns the same alias set and changes nothing |
| `AliasNesting.TypeAliases.Lookup` | gcc/alias.c:830-1111 | the recursive lookup that updates memo fields and table in place is the lookup function |
| `AliasNesting.TypeAliases.LookupHook` | gcc/alias.c:929-932 | so is the part that asks the language |
| `AliasNesting.TypeAliases.LookupSettled` | gcc/alias.c:912-1110 | so is the part that decides by the kind of type |
| `AliasNesting.TypeAliases.RecordComponents` | gcc/alias.c:1194-1261 | so is the loop over the fields |
| `AliasNesting.TypeAliases.MakeFresh` | gcc/alias.c:1082-1093 | a new alias set is stored with the type |
| `BaseTerm.Find` | gcc/alias.c:1881-2038 | the search ends on every graph of values, cyclic or not, and only ever cuts location lists |
| `BaseTerm.FindRecords` | gcc/alias.c:1946-1961 | every value whose list is cut is on the visited list with the list it had |
| `BaseTerm.SearchUndone` | gcc/alias.c:2043-2051 | putting back what was recorded gives every value its list again |
| `BaseTerm.FoundSound` | gcc/alias.c:1881-2038 | a base that is found can be derived in the uncut graph, following any location of a value and any operand of a sum |
| `BaseTermExact.FoundExactly` | gcc/alias.c:1881-2038 | a base is found if and only if one can be derived, where, among the values that can be come to, no sum turns a base down (no sums, or only known bases) and mutually located values agree on the stack pointer |
| `BaseTermExact.BarrenLosesNothing` | gcc/alias.c:1946-1961 | cutting values without a base loses no base of anything |
| `BaseTermExact.SumCanHideABase` | gcc/alias.c:1973-2024 | elsewhere a base can be missed: a sum turns it down after the value it came from was cut (concrete graph) |
| `BaseTermExact.StackBasePassedOver` | gcc/alias.c:1952-1957 | so can a base on the stack pointer, at a value whose only location is another that leads straight back (any two such values in any graph) |
| `BaseTermChoice.PicBase` | gcc/alias.c:1991-1992 | relative to the PIC register the base is that of the constant |
| `BaseTermChoice.PointerWins` | gcc/alias.c:1994-2018 | an operand that is a pointer register with a base gives the sum its base, the first if both are, whatever the other leads to |
| `BaseTermChoice.SymbolWins` | gcc/alias.c:2000-2013 | without one, a symbol or label as second operand is the base |
| `BaseTermChoice.NamedWins` | gcc/alias.c:2000-2023 | without a pointer register the operands are searched in turn, a constant second one first, and the base is the first that is named |
| `BaseTermChoice.SumTurnsDown` | gcc/alias.c:2005-2023 | a base returned for a sum is named or that of a pointer register operand |
| `BaseTermChoice.RegisterSum` | gcc/alias.c:1973-2024 | the base of a sum of two registers in all cases |
| `BaseTermChoice.InsideConstant` | gcc/alias.c:1968-1972 | a sum inside a constant is treated as the sum, any other constant has no base |
| `BaseTermChoice.ExtendedBase` | gcc/alias.c:1919-1934 | an extended address keeps its base; a constant one is converted |
| `BaseTermChoice.FirstLocationWins` | gcc/alias.c:1946-1961 | under the conditions of FoundExactly the base of a value is that of the first of its locations with a base that does not come from the value itself |
| `BaseTermChoice.StackValue` | gcc/alias.c:1943-1944 | a value based on the stack pointer has that base |
| `BaseTermExact.ValueTable.FindIn` | gcc/alias.c:1881-2038 | the search that cuts lists in the table itself is the search function |
| `BaseTermExact.ValueTable.FindInSum` | gcc/alias.c:1973-2024 | so is the part for sums, whose choice of base BaseTermChoice characterises: a pointer register with a base first, then a constant second operand, then a named base |
| `BaseTermExact.ValueTable.FindInValue` | gcc/alias.c:1936-1961 | so is the loop over the locations of a value |
| `BaseTermExact.ValueTable.FindBaseTerm` | gcc/alias.c:2043-2051 | the wrapper leaves every location list exactly as it was, returns only derivable bases, and is exact under the conditions of FoundExactly; which of several bases is returned is said in BaseTermChoice |
| `AsanBuffer.ExactIffHarmless` | gcc/asan.c:1263-1352 | for every strictly increasing run of granule-aligned offsets and either endianness, the four-byte stores make exactly the byte map asked for, zero elsewhere in touched windows and nothing outside them, if and only if only zeros precede a jump inside a window |
| `AsanBuffer.OneStorePerWindow` | gcc/asan.c:1263-1352 | every store is aligned to the original offset, and no window is stored to twice if and only if the bytes of each window follow each other directly |
| `AsanBuffer.RunLeaves` | gcc/asan.c:1263-1352 | what ends up at each shadow byte in every case: zero where a jump inside the window follows, else what was asked for |
| `AsanBuffer.MarksLost` | gcc/asan.c:1263-1300 | a run on which nonzero bytes are lost (concrete offsets) |
| `AsanBuffer.HarmlessIffSmooth` | gcc/asan.c:1263-1352 | where no zero is asked for, losing nothing and storing to each window once are the same |
| `AsanBuffer.EmptyAfter` | gcc/asan.c:1347-1352 | the buffer is empty after a byte exactly when the byte ends its window |
| `AsanBuffer.StoredBytes` | gcc/asan.c:1304-1342 | the word built for either endianness puts each byte at its own address |
| `AsanBuffer.RedzoneBuffer.EmitRedzoneByte` | gcc/asan.c:1263-1300 | the method is the emission function and keeps the buffer short and aligned |
| `AsanBuffer.RedzoneBuffer.FlushRedzonePayload` | gcc/asan.c:1304-1342 | the padding and shift loops make the one store of the flush function |
| `AsanBuffer.RedzoneBuffer.FlushBufferIfFull` | gcc/asan.c:1347-1352 | a full buffer is written |
| `AsanFrame.EmittedAsked` | gcc/asan.c:1543-1571 | for every layout the prologue asks for granules of gaps only, in strictly increasing order, never with value 0 |
| `AsanPoison.EmittedExactly` | gcc/asan.c:1543-1571 | it asks for every granule of every gap and for nothing else: with the mark of the gap (left, middle or right red zone), or with the number of bytes in use where the variable below ends inside the granule |
| `AsanPoison.PrologueShadow` | gcc/asan.c:1543-1571 | after the stores each of those granules holds that byte and no other granule is marked, if and only if no variable that starts 16 bytes into a red zone has a size from 8 to 15 |
| `AsanFrame.PrologueExact` | gcc/asan.c:1543-1571 | the prologue poisons exactly what it asks for, storing to each window once, if and only if no variable that starts 16 bytes into a red zone has a size from 8 to 15 |
| `AsanFrame.TightFrame` | gcc/asan.c:1543-1571 | a frame on which it does not (concrete offsets) |
| `AsanFrame.PrologueFlushed` | gcc/asan.c:1566-1571 | the buffer is empty at the end, as asserted there, exactly when the frame is a whole number of red zones |
| `AsanFrame.Prologue` | gcc/asan.c:1543-1565 | the loops over gaps and granules make the emissions of the specification in order |
| `AsanFrame.EmitGap` | gcc/asan.c:1550-1563 | so does the part for one gap, with its partial granule |
| `AsanEpilogue.EpilogueClears` | gcc/asan.c:1630-1685 | every granule the prologue asked to poison and every granule of a handled variable is cleared |
| `AsanEpilogue.EpilogueStaysInFrame` | gcc/asan.c:1630-1685 | lengths and starts are multiples of 4, no position is cleared twice, and nothing beyond the frame rounded up to 32; so nothing outside a frame of a multiple of 32 |
| `AsanEpilogue.FrameLeftClean` | gcc/asan.c:1543-1685 | where the epilogue clears nothing the prologue left no mark and no handled variable lies |
| `AsanClean.EpilogueClearsOnlyDirt` | gcc/asan.c:1630-1685 | where every variable is followed by a red zone, each position cleared is in a window of four with a granule that was poisoned or belongs to a handled variable |
| `AsanEpilogue.VariableReached` | gcc/asan.c:1648-1680 | rounding the size of a handled variable down to 16 still brings the stretch to the last window of the variable |
| `AsanEpilogue.Epilogue` | gcc/asan.c:1630-1685 | the loop with its moving shadow pointer clears the stretches of the specification |
| `AsanEpilogue.Gather` | gcc/asan.c:1636-1675 | one round starts a new stretch or extends the last one as specified |
| `AsanMark.ExpandMark` | gcc/asan.c:3221-3250 | for every size, either endianness and either alignment rule, the stores tile exactly the shadow bytes of the variable, byte for byte the poison, or zeros with the size modulo 8 last; no store is wider than the alignment of the shadow under strict alignment, and each is the widest that fits there |
| `AsanMark.StoreShadowBytes` | gcc/asan.c:3133-3179 | the word of a store has the partial byte at the highest address for either endianness |
| `AsanMark.TilesCover` | gcc/asan.c:3221-3250 | tiling stores cover each position once and nothing else |
| `AsanMark.ShadowSize` | gcc/asan.c:1213-1222 | the least number of granules that hold the variable |
| `AsanMark.NextChunk` | gcc/asan.c:3221-3248 | one round stores the widest chunk that fits, with the right bytes |
| `AsanCheck.ScalarExact` | gcc/asan.c:3376-3454 | the scalar check fires exactly when some accessed byte is unaddressable, for every access left scalar at the alignment it is said to have |
| `AsanCheck.UnalignedExactIff` | gcc/asan.c:2141-2158 | with no alignment known it is exact for every shadow if and only if the access lies in one granule or is two whole ones |
| `AsanCheck.ScalarIsContained` | gcc/asan.c:2141-2158 | an access left scalar at its alignment lies in one granule or is two whole ones |
| `AsanCheck.StaysScalarIff` | gcc/asan.c:2141-2158 | exactly the accesses that are so contained wherever they are aligned as said stay scalar, except that 16 bytes need their full alignment on a strict target |
| `AsanCheck.RegionComplete` | gcc/asan.c:3376-3454 | if unaddressable bytes come in runs of at least R, the first-and-last-byte check reports exactly the regions of at most R + 1 bytes that touch one |
| `AsanCheck.RegionTight` | gcc/asan.c:3376-3454 | with R + 2 bytes a run of R can be missed (for every R that is a multiple of 8) |
| `AsanCheck.RegionMeaning` | gcc/asan.c:3421-3454 | the region check fires exactly when the first or the last byte is unaddressable |
| `AsanCheck.RedZoneSize` | gcc/asan.h:103-108 | the red zone is at least 32 and less than 64 bytes and fills the variable up to a multiple of 32 |
| `AsanCheck.GlobalsRegionExact` | gcc/asan.c:3376-3454 | globals padded by red zones of that size give runs of at least 32 unaddressable bytes, so regions of up to 33 bytes are reported exactly |
| `AsanCheck.PaddingIsBad` | gcc/asan.h:103-108 | with the padding marked, and the granule it shares with its object marked by the bytes in use, a byte is unaddressable exactly when it is padding |
| `PoolRuns.AfterAnyRun` | gcc/alloc-pool.h:250-471 | after every run of allocations, removals of live objects, releases and writes by owners: live objects do not overlap, each lies in an owned block behind the header with room for its size, free elements are the free list and the virgin remainder, allocated ones those of the owned blocks, and their difference is the number of live objects |
| `PoolRuns.StepValid` | gcc/alloc-pool.h:299-462 | every operation keeps the invariant behind that |
| `PoolRuns.WriteValid` | gcc/alloc-pool.h:345-462 | writes inside live objects cannot disturb the free list or the list of blocks |
| `PoolRuns.MarkMeansLive` | gcc/alloc-pool.h:433-446 | among the elements ever given out, the owner mark that removal insists on is right exactly on the live ones |
| `PoolRuns.EmptyMeansNoneLive` | gcc/alloc-pool.h:330-336 | release_if_empty releases exactly when no object is live |
| `PoolRuns.LastRemovedFirstGiven` | gcc/alloc-pool.h:345-462 | the object removed last is given out next, without a new block |
| `PoolRuns.BlockOnlyWhenFull` | gcc/alloc-pool.h:345-411 | an allocation takes a new block exactly when every element of the owned blocks is live |
| `PoolSteps.PopValid` | gcc/alloc-pool.h:411-424 | taking the first free element keeps all books |
| `PoolSteps.PushValid` | gcc/alloc-pool.h:427-462 | returning a live object keeps all books |
| `PoolSteps.AddBlockValid` | gcc/alloc-pool.h:370-392 | a new block keeps all books, all of it virgin |
| `PoolSteps.TakeVirginValid` | gcc/alloc-pool.h:394-409 | the first virgin element becomes the only free one |
| `PoolSteps.InitializeValid` | gcc/alloc-pool.h:250-296 | the sizes computed on first use fit: an element holds data, link and mark, and a block at least one element |
| `PoolSteps.InitializeFills` | gcc/alloc-pool.h:250-296 | an element is the least multiple of 8 that holds mark and data or link, a block has as many as fit behind its header and not one more, and the pool number is the next one, never 0 |
| `PoolSteps.EltSize` | gcc/alloc-pool.h:257-272 | the element size is the least multiple of 8 that holds the data, or a link, behind the mark |
| `PoolSteps.NextId` | gcc/alloc-pool.h:289-295 | pool numbers are never 0, also when they wrap around |
| `PoolObject.PoolAllocator.constructor` | gcc/alloc-pool.h:238-246 | a new pool is empty and valid |
| `PoolObject.PoolAllocator.InitializePool` | gcc/alloc-pool.h:250-296 | the fields become those of the initialisation step |
| `PoolObject.PoolAllocator.AllocateElement` | gcc/alloc-pool.h:345-424 | an element that was not live becomes live and its address is returned; all books are kept |
| `PoolObject.PoolAllocator.RemoveElement` | gcc/alloc-pool.h:427-462 | the object is no longer live and heads the free list; all books are kept |
| `PoolObject.PoolAllocator.ReleaseBlocks` | gcc/alloc-pool.h:299-328 | every owned block is given back exactly once and the pool is empty again |
| `PoolObject.PoolAllocator.ReleaseIfNoneLive` | gcc/alloc-pool.h:330-336 | that happens exactly when no object is live |
| `PoolObject.PoolAllocator.NumEltsCurrent` | gcc/alloc-pool.h:466-471 | the number returned is the number of live objects |
| `AutoFdoPropagate.RoundGrows` | gcc/auto-profile.c:1202-1345 | a round lowers no block count, withdraws no annotation and changes no annotated edge |
| `AutoFdoSettles.CappedGrows` | gcc/auto-profile.c:1350-1374 | nor does a whole run of the loop |
| `AutoFdoSettles.RoundMeasure` | gcc/auto-profile.c:1202-1345 | a round that reports a change leaves fewer unannotated edges, or as many and fewer sides that exceed their block |
| `AutoFdoSettles.Uncapped` | gcc/auto-profile.c:1364-1373 | the loop without its cap ends on every graph and every start |
| `AutoFdoSettles.EnoughRounds` | gcc/auto-profile.c:1364-1373 | for every start there is a number of rounds after which a cap makes no difference |
| `AutoFdoSettles.CappedIsUncapped` | gcc/auto-profile.c:1364-1373 | a capped run that stops by itself has the outcome of the uncapped one |
| `AutoFdoSettles.NoChangeIffQuiet` | gcc/auto-profile.c:1202-1243 | a round reports no change if and only if no annotated block it visits has exactly one unknown edge on a side and no known side exceeds its block; then its edge passes change nothing |
| `AutoFdoSettles.VisitBalances` | gcc/auto-profile.c:1202-1243 | a visit that does something leaves the side known and adding up to the block, or to the known edges where those exceed an annotated block |
| `AutoFdoSettles.CircuitsCanLeaveWork` | gcc/auto-profile.c:1277-1345 | the loop can stop right after the circuit step has made an edge rule applicable again (concrete graph) |
| `AutoFdoSettles.WorkLeftIsNew` | gcc/auto-profile.c:1277-1345 | on every graph: if a round reports no change and a block the rules visit is left with work, the circuit step of that round has annotated one of its edges |
| `AutoFdoSettles.CappedWorkLeft` | gcc/auto-profile.c:1350-1374 | so for the capped loop: where it stops by itself with work left at a block, its last round changed nothing but circuits, and those annotated an edge of the block |
| `AutoFdoSettles.NoCircuitsNoWork` | gcc/auto-profile.c:1350-1374 | without circuits it leaves no work when it stops by itself |
| `AutoFdoCircuits.KeptLeadsThere` | gcc/auto-profile.c:1313-1328 | for an outgoing edge exactly those merge edges count whose constant makes the branch take that edge |
| `AutoFdoCircuits.UseGives` | gcc/auto-profile.c:1310-1343 | one annotated outgoing edge annotates an edge only if it is one of its merge edges, with its own count, and only where that count is 0 or there is no other merge edge; every other edge is unchanged |
| `AutoFdoCircuits.CircuitGives` | gcc/auto-profile.c:1277-1345 | every edge the circuit step annotates got its count so, from a branch of an annotated block |
| `AutoFdoCircuits.CircuitTakesAll` | gcc/auto-profile.c:1277-1345 | conversely no annotated outgoing edge of an annotated block is left with an unannotated only merge edge, or with any where its count is 0 |
| `AutoFdoCircuits.FirstOutgoingEdge` | gcc/auto-profile.c:1202-1243 | a round looks at outgoing sides first, in the order of the blocks: the first block with exactly one unknown outgoing edge gives it what its count leaves over |
| `AutoFdoCircuits.FirstIncomingEdge` | gcc/auto-profile.c:1202-1243 | only then at incoming sides, in the same order |
| `AutoFdoObject.Propagation.VisitBlock` | gcc/auto-profile.c:1208-1241 | the loop over the edges of a side and the two rules are the visit function |
| `AutoFdoObject.Propagation.PropagateEdge` | gcc/auto-profile.c:1202-1243 | the loop over the blocks is the pass function, with its report |
| `AutoFdoObject.Propagation.PropagateCircuit` | gcc/auto-profile.c:1277-1345 | the loops over circuits and merge edges are the circuit function, which gives exactly the counts of AutoFdoCircuits.CircuitGives and AutoFdoCircuits.CircuitTakesAll |
| `AutoFdoObject.Propagation.TakeUse` | gcc/auto-profile.c:1310-1343 | so is the part for one outgoing edge, whose effect on every edge AutoFdoCircuits.UseGives states |
| `AutoFdoObject.Propagation.Propagate` | gcc/auto-profile.c:1350-1374 | the capped loop in place; no count falls, and where it stops by itself the outcome is the uncapped one |
| `AutoFdoReader.BuildTotals` | gcc/auto-profile.c:647-683 | for every profile and stack: each instance read has as total the sum of all counts read for it and all nested in it, each instance on the stack has grown by the sum of the whole, and nothing else has changed |
| `AutoFdoFormat.ParseEncoded` | gcc/auto-profile.c:616-683 | for every nested profile that fits its fields, wherever it stands in a stream and whatever follows: reading what the layout makes of it gives back names, offsets with their lower half cleared, counts and nested callees in order, and stops at its end |
| `AutoFdoFormat.ReadBack` | gcc/auto-profile.c:616-683 | the same between any two stretches of a stream |
| `AutoFdoStored.MapsHoldLast` | gcc/auto-profile.c:657-680 | an instance holds each offset of its profile once with the count read last for it, and each call site and callee once with the instance read last for it |
| `AutoFdoStored.AnnotatedIsMarkedSum` | gcc/auto-profile.c:687-699 | the annotated total is the sum of the marked counts that are stored in an instance and in the instances stored below it |
| `AutoFdoStored.AnnotatedOfRead` | gcc/auto-profile.c:647-699 | so for every stream and stack; it is 0 with nothing marked, and the total with everything marked and nothing repeated |
| `AutoFdoReader.AnnotatedBelowSum` | gcc/auto-profile.c:687-699 | with counts not negative the annotated total is at most the total for any marking, although duplicate keys overwrite entries; its exact value is that of AutoFdoStored.AnnotatedIsMarkedSum |
| `AutoFdoReader.AnnotatedBelowTotal` | gcc/auto-profile.c:647-699 | so for every stream read with any stack; the exact value is that of AutoFdoStored.AnnotatedOfRead |
| `AutoFdoReader.Reader.ReadInstance` | gcc/auto-profile.c:647-683 | reading from the stream in place restores the stack, creates the instances of the parsed profile and gives them the totals of BuildTotals; the parsed profile is the one the stream was laid out from (AutoFdoFormat.ReadBack) |
| `AutoFdoReader.Reader.ReadCounts` | gcc/auto-profile.c:657-672 | the loop over positions takes in exactly the counts parsed |
| `AutoFdoReader.Reader.ReadCalls` | gcc/auto-profile.c:673-680 | the loop over call sites builds exactly the callees parsed |
| `AutoFdoReader.Reader.AddToStack` | gcc/auto-profile.c:663-664 | the inner loop adds the count once to everything on the stack |
| `Attribs.AttributeListContained` | gcc/attribs.c:1766-1805 | true if and only if each element of the second list has an equal in the first, despite the skipped common beginning and the test for one list |
| `Attribs.AttributeListEqual` | gcc/attribs.c:1747-1756 | true if and only if each list is contained in the other |
| `Attribs.MergeAttributes` | gcc/attribs.c:1434-1476 | the result contains both lists and no element of neither; it is the list that contains the other, or else the longer one as it is with, in front and in reverse order, exactly those elements of the other that have no equal in it nor before them in the other |
| `Attribs.UnionUnique` | gcc/attribs.c:1434-1476 | such a result is unique up to equivalence, so the order of the arguments does not matter |
| `Attribs.ContainsTrans` | gcc/attribs.c:1766-1805 | containment is transitive |
| `Attribs.FindEqual` | gcc/attribs.c:1787-1802 | the repeated lookup finds an equal exactly when there is one |
| `Attribs.LookupIdentAttribute` | gcc/attribs.c:1389-1407 | the first place from the given one on with the name in either spelling |
| `ShellQuote.RoundTrip` | fixincludes/fixlib.c:234-278 | a shell reads the quoted text of every string back as the string, by sections 2.2.1 and 2.2.2 of the POSIX Shell Command Language |
| `ShellQuote.MakeRawShellStr` | fixincludes/fixlib.c:234-278 | with a buffer of at least one byte nothing outside it is written; the string is written exactly when it is taken, and then the bytes are its quoted text and a NUL; a buffer of no bytes makes the size wrap around and the text is written in any case |
| `ShellQuote.TakenFits` | fixincludes/fixlib.c:241-258 | a string that is taken fits, with its NUL |
| `ShellQuote.QuoteCheck` | fixincludes/fixlib.c:267-271 | the check made at a quote fails only for a single quote at the end of a string that is counted to fit exactly |
| `ShellQuote.RoomNotUsed` | fixincludes/fixlib.c:241-271 | strings for which there is room can be turned away (concrete string and sizes) |
| `ShellQuote.DataSize` | fixincludes/fixlib.c:243-254 | the count is the length and three, and four for each quote |
| `ShellQuote.PutChar` | fixincludes/fixlib.c:260-272 | one character or escape is appended unless one of the two checks fails |

## Left out

- AutoIncPass.MergePreservesMeaning: one direction only, because of stale add entries: a merge that uses one can preserve meaning
  by accident of the values involved. For the first merge of a scan nothing has to be excluded (AutoIncPass.FirstMergePreserves),
  and for a merge past a copy both directions are proved (AutoIncPass.VisitPreservesIff).
- AliasConflicts.ConflictIffTypesConflict: for programs in which rebuilding a rebuilt pointer type gives the same type, which is
  what gcc/alias.c:1043-1057 expects of it; the subset query is stated over recorded edges only (AliasSets.SubsetIsReachability).
- AutoIncComplete.ScanTakesChance: not for an access that also defines the register added to, behind an earlier merge; before any
  merge there is no exception (AutoIncChances.MergesIffChance).
- AutoIncTable.RegisterEntries: the merge proofs are for constant increments; increments held in a register, jumps, debug
  instructions and the moving of death notes are not modelled. Costs, recognition of the new instruction and death notes are one
  arbitrary yes or no.
- Memref.YesMeansOverlap: not for ANDs, where it is false. Values of the value table, HIGH and LO_SUM, products, symbols, section
  anchors and sizes that are not constants are not modelled; `poly_int64` is an integer without overflow.
- AliasSets.SubsetIsReachability: reflexivity, and that a subset conflicts for sets with a zero child, are not claimed; the code
  does not define them so.
- AliasTypes.GetKeeps: alias sets of declarations and of references to components, and the language hook beyond its three outcomes,
  are not modelled.
- BaseTermExact.FoundExactly: the condition is not necessary: whether a base that a sum turns down is missed depends on which
  values happen to be cut by then, and a second location may still lead to it. The machine hook for base terms is the identity, and
  conversion of constant addresses an arbitrary function.
- AsanFrame.PrologueExact: for frames in which every variable is followed by a red zone, as the layout makes them.
- AsanEpilogue.EpilogueClears: the branch for frames kept after return, which marks the whole frame, is not modelled; nor are frame
  magic words and the emission of RTL.
- AsanClean.EpilogueClearsOnlyDirt: for frames in which every variable is followed by a red zone.
- AsanMark.ExpandMark: the library call made above the size threshold is not modelled.
- AsanCheck.ScalarExact: the library callbacks and the cache of checks already made are not modelled.
- PoolObject.PoolAllocator.RemoveElement: the filling of a dead object is not modelled beyond its link; statistics are left out, and
  the block allocator is any source of blocks that do not overlap.
- AutoFdoSettles.NoChangeIffQuiet: counts are natural numbers; profile counts that are not initialised or saturate, the equivalence
  classes of blocks, and branch probabilities are not modelled. Which merge a branch tests, through copies, is given.
- AutoFdoReader.Reader.ReadInstance: a stream is a sequence of values rather than of bytes, and histograms of indirect call targets are
  passed over. The layout described at gcc/auto-profile.c:616-645 begins with an entry count; the code reads it before the call, for
  outermost instances only; the model takes it as given.
- Attribs.AttributeListContained: equality of attributes is any equivalence; how values are compared, and removal of attributes, are
  not modelled.
- ShellQuote.MakeRawShellStr: strings shorter than an eighth of the address space, so that the count does not wrap.
- Everything else in the repository: the model covers only these files, and of them only the functions cited above.
