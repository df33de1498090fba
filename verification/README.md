# A verified model of the BDD package

This project models G. Janssen's package for binary decision diagrams, the engine behind the mu-calculus model checker of PVS, and proves what its data structures promise. It follows `bdd.c`, `bdd.h`, `bdd_quant.c`, `bdd_fns.c`, `bdd_factor.c`, `bdd_vfns.c`, `double.c`, `hash.c` and `list.c` under `src/BDD/bdd`, in the configuration PVS runs: complemented edges on, inverted inputs off, garbage collection and reordering on, no don't-care terminal, no node limits. In one point the model departs from that configuration: the cache of sum-of-products lists, on by default (`bdd_fns.c:2518`) and used behind `mu_interface.c:222-235`, must be empty before and after every operation but the garbage collection itself. With that cache in use the package does not keep its own computed table sound, as the first of the differences below shows.

## How the package is modelled

- A Boolean function is the set of assignments that satisfy it (`Functions`); an assignment is the finite set of true variables. The terminal denotes the constant 1, and an edge is a node address with an inverter bit (`Graph`).
- `State.Manager` holds the global state: the unique table as a map from addresses to nodes, saturating reference counts, the variable order with its inverse, the variable groups, the lossy computed table, the references held by the cache of sum-of-products lists, and the reordering switch. Two ghost fields accompany it: the function of every node, and the multiset of references held outside the table.
- `Valid()` says: ordered, reduced, shared, THEN edges positive; the kept functions satisfy every node's Shannon equation; every count below the saturation point equals the outside references plus the edges from live parents; every computed-table entry names nodes of the table and is right; the sum-of-products cache is empty.
- Operations are methods that change this state in place. What each delivers is stated on functions: the result edge is in the table, held once more, and denotes a named function of the old state, while everything that was held, or was alive, keeps its function. Each method is tied to a specification whose own properties are separate lemmas: `Nearest` for constrain, `Simplify` for restrict, `Exists` for quantification, `Compose` for substitution, `Cubes` for covers, `Expressions` for printed equations, `DumpFormat` for bytes, `Probing` and `Rehash` for the hash table.
- The node memory of a traversal (`Traverse.Memory`), the auxiliary fields of nodes (`Slots.Scratch`, `CountSat.Counts`, `Factor.Fields`), linked lists (`Lists.List`), the relational-product cache (`AndSmooth.ProductCache`) and the name table (`HashTable.HashTab`) are classes of their own.

## Main results

- **Whole runs.** `Session.Run`: over any legal sequence of client operations from an empty package, quantification over any set of variables, constrain and restrict, group operations and reordering among them, every handle denotes what a run of the same operations on functions says, order and groups follow the same run, and pointers are equal exactly when functions are. `Commands.Determined`: without constrain and restrict the functions depend on the commands alone. `GroupRuns.StayTogether` and `GroupRuns.StayFixed`: groups are never torn apart except by moving single variables or undoing all groups, and a group that is not reorderable keeps its order.
- **Level exchange in place.** `Swap.SwapLevels`, over the state invariant of `Levels` that holds between any two rewritten nodes.
- **Sifting.** `Size.SizeDetermined` and `Search.TriedOptimal` make the outcome of `Sift.SiftVar` and `Groups.SiftGroup` optimal among all positions tried, as long as no count saturates on the way; `Reorder.DynamicOrder` says which variables and groups have their turn, in which order and until when, and that inside a group that is not orderable nothing moves; `Freezing.RoomEnough` gives a condition on the table before the call under which none can.
- **Pointer reversal.** `Traverse.Traverse` against the recursive traversals, link by link, and these against depth-first order (`DepthFirst.VisitOrder`), with arbitrary actions that run while the links are reversed. `FreeSlots.FreeIsLocal` and `Printing.PrintLooksBelow` are the instances for giving slots back and for printing, and `FreeSlots.FreeAll` is the former within the traversal.
- **Memo tables with partial keys.** `Quantify.QuantifyAux`, `AndSmooth.AndSmoothAux` and `Substitute.SubstAux` hold for every suffix of their list, although their memos do not mention it.
- **One entry for equivalent calls.** `IteOps.OrCommutes` and the six laws after it: calls of the operator that differ by one of the rewritings have the same standard form, under which `IteOps.IteAux` remembers the answer.
- **Constrain and restrict.** `Nearest.ProjNearest`, `ConstrainOps.VecImage` and the laws for cubes and disjoint supports in `Cofactors`; `RestrictOps.RestrictAux`, the function of which `Simplify.RestrictOk` tells the properties.
- **Irredundant covers on mutable lists.** `SumOfCubes.BddIrredundant`.
- **Printed equations.** `Factoring.BddFactorVec`: the equations have a solution, every solution gives back the functions, and in the bottom-up style no name is used before its equation.
- **Dump and restore.** `Restore.RoundTrip` and `Restore.SameEdges`, in any order of the variables, with any variables missing; `DumpLimit.ComesBackIff`: exactly for which vectors; `DumpFormat.NodeLayout` and `DumpFormat.EdgeLayout`: the bytes.
- **Counting and rounding.** `Doubles.Add` rounds the true sum down; `CountSat.CountSatAssignments` is off by at most one part in 2^46 for every variable, and flagged exactly if it is off.
- **Rehashing.** `Rehash.FitsIff`: exactly how many names can always move to the next table size.

## Where the code and its promises differ

- `bdd_gc` flushes the computed table before it empties the sum-of-products cache. `SopHazard.GcLeavesDangling` is a table in which this leaves an entry that names a removed node. It cannot happen, whatever the computed table holds, exactly if every node that cache names is also reached from a node that is frozen or held by something else (`SopHazard.GcSafeIff`). The computed table ranges over all sound ones there; `SopHazard.BuiltEntryLost` shows that entries in the standard form `bdd_ite_aux` inserts are among those lost. All other operations are modelled with that cache empty, as after `bdd_use_sop_cache_switch (0)`.
- The comment on `bdd_reorder_var` promises to reorder irrespective of the size, and failure in rare cases with don't-care nodes only. The code gives up, exactly when the table ends more than 5 per cent larger than the live nodes were (`Reorder.ReorderVar`); `ReorderLimit.GivesUp` is a table of three nodes for which it must.
- `bdd_create_var_before` inserts behind the whole group of the preceding variable; `NewVar.BeforeIsBefore` says when this is directly before the given one, and `NewVar.NotBefore` is a group for which it is not.
- The law g[u/v] = E v.(v == u and g) in the comment on `bdd_subst` needs u to be another variable than v, or g without v (`Compose.RenameIsSmooth`); for the literal of v it fails (`Compose.RenameFails`).
- For the empty cube `bdd_count_sat_assignments` answers 0. By its comment the constant 1 has one satisfying assignment over no variables, the empty one, so the answer is wrong for the constant 1 and for no other function the comment allows (`CountSat.OverNothing`). The comment also says that the program exits when the support of f is not contained in the domain; no code does so, and the model takes it as a requirement.
- A dump has 22 bits for an address, and nothing checks that an address fits. A vector comes back exactly if it has at most 2^22 - 3 internal nodes, which get the addresses from 3 (`DumpLimit.ComesBackIff`); an element at the next address is read as a constant (`DumpLimit.FirstLost`). The condition is exact also if an address that was cut could be read as the don't-care constant or as a node with an inverted input, because inverting an input leaves the number of nodes as it is (`DumpLimit.MirrorSize`). The 16 bits for a variable always suffice, since ids stay below 65535.
- A frozen node is never freed, so what reordering is for, a table no larger than before, is proved for runs that freeze no node. That a run which does freeze one can end with a larger table is not claimed; no such run is given. No node is frozen if in every order the table has at most N nodes and every unfrozen node is held fewer than 16383 - 6N times (`Size.Spacious`); with V variables and R nodes held or frozen, R2^V is such an N (`Freezing.RoomEnough`).
- A rehash of the name table that overflows inside a rehash copies entries it should move. n names can always move to size p, whatever the hash function, if and only if 2n is at most p + 1 (`Rehash.FitsIff`); so 52 names in the table of 53 need not fit the one of 101 (`Rehash.FirstSizes`). `HashTable.HashTab.Lookup` ends with a report where this happens.
- The comment above `bdd_traverse_pre` forbids ite operations in its actions, as links are reversed meanwhile; `print_action` in `bdd_factor.c` calls `bdd_ite_const` all the same. `Traverse.BelowIsLocal` and `Traverse.Traverse` show what is safe: any action that looks at nothing above the node it is called on. The print action is one (`Printing.PrintLooksBelow`). The action that frees slots is one only because the traversed nodes stay alive without any slot (`FreeSlots.FreeIsLocal`); a slot that held an ancestor alive would be released wrongly (`FreeSlots.FreeSeesParents`).

## Model

| member | source | states |
|---|---|---|
| `Graph.SemIsEval` | src/BDD/bdd/src/bdd.h:286-320 | The function kept for an edge is what following the edges from the root, complementing at every output inverter, computes at each assignment. |
| `Graph.Canonical` | src/BDD/bdd/src/bdd.c:1638-1690 | Strong canonicity of a well-formed graph: two edges denote the same function exactly when they are the same pointer. |
| `Graph.PositiveIffAllOnes` | src/BDD/bdd/src/bdd.c:1660-1690 | An edge has no output inverter exactly when its function is true where all variables are true. |
| `Graph.SemExpand` | src/BDD/bdd/src/bdd.h:294-313 | The two cofactor macros give the branches of the Shannon expansion over the node's variable, inverter bit included. |
| `Graph.TopVariableMatters` | src/BDD/bdd/src/bdd.c:1638-1690 | A node's function really depends on the node's variable. |
| `Graph.SemIndep` | src/BDD/bdd/src/bdd.c:1638-1690 | A function does not depend on variables ranked above its edge. |
| `RefCount.StaysAlive` | src/BDD/bdd/src/bdd.h:128-159 | Which nodes are alive depends on the outside references only: with at least the same references held, every node that was alive is alive. |
| `RefCount.IncrOk` | src/BDD/bdd/src/bdd.h:140-143 | Counting a reference with saturation keeps every unfrozen count equal to outside references plus edges from live parents. |
| `RefCount.DecrOk` | src/BDD/bdd/src/bdd.h:154-159 | The same for giving a reference up; a frozen count stays. |
| `Tables.AddRef` | src/BDD/bdd/src/bdd.c:3512-3516 | One more reference is held; all else, and every function, is as before. |
| `Tables.Free` | src/BDD/bdd/src/bdd.c:888-905 | One reference is given up, recursively those of nodes that die; counts stay exact for unfrozen nodes, and exactly the same nodes are frozen afterwards. |
| `Tables.ReclaimAux` | src/BDD/bdd/src/bdd.c:935-956 | A dead node comes back to life together with everything it points to, every count paid for exactly once. |
| `Tables.Reclaim` | src/BDD/bdd/src/bdd.c:961-968 | A dead node found by a table hit is alive again and held once; nothing alive changes. |
| `Tables.Lookup` | src/BDD/bdd/src/bdd.c:1034-1040 | A hit exactly when the slot holds an entry for these arguments; its edge is right for them, and is held afterwards; a miss changes nothing. |
| `Tables.Insert` | src/BDD/bdd/src/bdd.c:1043-1070 | Exactly the slot of the arguments is overwritten, whatever it held, and the lossy table stays sound. |
| `Tables.Flush` | src/BDD/bdd/src/bdd.c:1337-1355 | Exactly the entries that name a dead node are emptied. |
| `Tables.FlushSweepOk` | src/BDD/bdd/src/bdd.c:1560-1565 | Once no entry names a dead node, none names a node that the sweep removes, and every entry is still right. |
| `Tables.GcAux` | src/BDD/bdd/src/bdd.c:1489-1544 | The references of the sum-of-products cache are given up, and then exactly the live nodes remain, unchanged. |
| `Tables.Gc` | src/BDD/bdd/src/bdd.c:1550-1571 | With an empty sum-of-products cache: exactly the dead nodes go, every live node keeps address, structure and function, and exactly the computed-table entries that name a dead node are emptied. |
| `Tables.ExtendCache` | src/BDD/bdd/src/bdd.c:1372-1425 | The table doubles; each entry that names no dead node is in its new slot, unless a later one that belongs there too is, and nothing else is in the table. |
| `Tables.CreateNode` | src/BDD/bdd/src/bdd.c:1691-1871 | The one node for v-then-T-else-E, found or made, revived if dead, with the inverter pushed to the result; the graph stays ordered, reduced and shared, through a possible garbage collection. |
| `Slots.CreateVar` | src/BDD/bdd/src/bdd.c:2042-2066 | The held positive literal of a variable. |
| `SopHazard.GcAny` | src/BDD/bdd/src/bdd.c:1550-1571 | bdd_gc as it stands with any sum-of-products cache: the computed table is flushed by the counts before that cache is emptied, the nodes are swept by the counts after. |
| `SopHazard.GcSafeIff` | src/BDD/bdd/src/bdd.c:1546-1571 | On the state before the call: no computed-table entry can name a removed node afterwards, whatever the table holds, if and only if every node the sum-of-products cache names can also be reached from a node that is frozen or held by something else. |
| `SopHazard.GcLeavesDangling` | src/BDD/bdd/src/bdd.c:1497-1504 | A concrete table of three nodes, the third held by the sum-of-products cache only, that fails this condition: a sound entry survives the flush and then names a node that is gone. |
| `SopHazard.BuiltEntryLost` | src/BDD/bdd/src/bdd.c:1546-1571 | An entry in the standard form the package inserts, a literal with the children of the lost node, survives the flush as well. |
| `IteOps.StandardizeOk` | src/BDD/bdd/src/bdd.c:2290-2462 | All argument rewritings of the operator keep the function and end in a positive non-constant first and positive second argument, or in the answer. |
| `IteOps.OrCommutes` | src/BDD/bdd/src/bdd.c:2365-2375 | ite (F, 1, H) and ite (H, 1, F) have the same standard form, and so share an entry of the computed table. |
| `IteOps.AndCommutes` | src/BDD/bdd/src/bdd.c:2376-2386 | So have ite (F, G, 0) and ite (G, F, 0). |
| `IteOps.ImpliesTurns` | src/BDD/bdd/src/bdd.c:2390-2399 | So have ite (F, G, 1) and ite (G', F', 1). |
| `IteOps.DiffTurns` | src/BDD/bdd/src/bdd.c:2401-2410 | So have ite (F, 0, H) and ite (H', 0, F'). |
| `IteOps.XnorCommutes` | src/BDD/bdd/src/bdd.c:2412-2432 | So have ite (F, G, G') and ite (G, F, F'). |
| `IteOps.FlipFirst` | src/BDD/bdd/src/bdd.c:2434-2448 | So have ite (F', G, H) and ite (F, H, G). |
| `IteOps.FlipResult` | src/BDD/bdd/src/bdd.c:2434-2459 | The standard form of ite (F, G', H') is that of ite (F, G, H) with the result complemented. |
| `IteOps.IteAux` | src/BDD/bdd/src/bdd.c:2276-2570 | The canonical edge of if-f-then-g-else-h, through every rewriting, hit, revival and recursion, remembered in the computed table under the standard form; terminates; the computed table stays sound and all that was alive is untouched. |
| `IteOps.IteConst` | src/BDD/bdd/src/bdd.c:2833-3034 | Decides exactly whether if-f-then-g-else-h is constant, and which constant, without making or changing a node. |
| `Operators.BddIte` | src/BDD/bdd/src/bdd.c:2722-2822 | The result is if-F-then-G-else-H and every reference held before keeps its function, whatever reordering follows; every group is kept, with its order unless it is orderable; void if an argument is void. |
| `Levels.MidCanonical` | src/BDD/bdd/src/bdd.c:4587-4708 | In every intermediate state of a level exchange, with some nodes rewritten and some not, equal functions still mean equal edges. |
| `Swap.CreateNode1` | src/BDD/bdd/src/bdd.c:4460-4544 | The node made while levels are exchanged is found or new on the level it moves to, and its own references are counted. |
| `Swap.LocalGc` | src/BDD/bdd/src/bdd.c:4547-4580 | A node of the lower level that died is unlinked and its children's counts go down; the intermediate state stays consistent. |
| `Swap.ProcessNode` | src/BDD/bdd/src/bdd.c:4604-4700 | One node is rewritten in place, in either order of its branches: same address, same function, exact counts, nothing dead left behind. |
| `Swap.ProcessLevel` | src/BDD/bdd/src/bdd.c:4587-4708 | After the whole level has been rewritten the table is well-formed for the exchanged order, dead-free and exactly counted. |
| `Swap.SwapLevels` | src/BDD/bdd/src/bdd.c:4856-4871 | Exchanging adjacent ranks in place: every node outside the lower level, and every held or frozen node, keeps its address and its function; ordered, reduced, shared, exact counts and no dead nodes again; at most two nodes are made for each there was, each adding at most two to any count. |
| `Size.SwapStaysUnfrozen` | src/BDD/bdd/src/bdd.c:4587-4708 | In a dead-free table of at most N nodes an exchange of ranks freezes nothing, even on the way, if every unfrozen node is held fewer than MAXREF - 6N times from outside. |
| `Size.SizeDetermined` | src/BDD/bdd/src/bdd.c:4926-5034 | Without newly frozen nodes, two dead-free tables with the same order and the same held functions have equally many nodes. |
| `Search.TriedOptimal` | src/BDD/bdd/src/bdd.c:4926-5034 | The best size remembered by the hill climb is minimal over all positions between the two turning points, against any way of getting there. |
| `Search.SearchEnd` | src/BDD/bdd/src/bdd.c:5020-5034 | Moving back to the remembered best position brings exactly the best size back. |
| `Freezing.TableSize` | src/BDD/bdd/src/bdd.c:1638-1690 | In any order of V variables a dead-free table has at most 2^V - 1 nodes for each node held or frozen. |
| `Freezing.RoomEnough` | src/BDD/bdd/src/bdd.c:4926-5034 | A condition computed before the call under which no reordering whatever freezes a node: with V variables and R nodes held or frozen, every unfrozen node held fewer than MAXREF - 6R2^V times. |
| `Sift.SiftVar` | src/BDD/bdd/src/bdd.c:4882-5049 | A variable is sifted down, up and back: only its own place changes, all held functions are kept, and if the counts have room, or no node got frozen, the table ends with the fewest nodes of all positions tried, which end at a bound or at a growth of 5 per cent. |
| `Sift.OrderGroup` | src/BDD/bdd/src/bdd.c:4882-5049 | The variables of a group, those with the most nodes first and those without any left out, are each left on the best rank of the group tried, until all had their turn or the budget is spent; outside ranks and held functions stay; the gain is what was saved, and with room for the counts nothing gets frozen and the table does not grow. |
| `Turns.CountCandidates` | src/BDD/bdd/src/bdd.c:4908-4912 | The candidates with a turn are those up to the last that has nodes, and the first in any case for variables. |
| `Sift.GroupSiftedWithin` | src/BDD/bdd/src/bdd.c:4882-5049 | After a sweep the ranks outside the group hold what they held, and those inside the same variables. |
| `Groups.SwapGroupDown` | src/BDD/bdd/src/bdd.c:5173-5194 | Two neighbouring groups trade places, the variables of each in order. |
| `Groups.SwapGroupsBlocks` | src/BDD/bdd/src/bdd.c:5173-5194 | Exchanging groups moves no other group and keeps the variables of both in order. |
| `Groups.SwapGroupsTwice` | src/BDD/bdd/src/bdd.c:5160-5194 | Exchanging two groups twice restores the exact order, which is how a group is taken back. |
| `Groups.MoveRankDown` | src/BDD/bdd/src/bdd.c:5144-5159 | A variable is moved down past a stretch of ranks, keeping every held function. |
| `Groups.RelinkedOk` | src/BDD/bdd/src/bdd.c:5320-5400 | Exchanging positions g and g + 1 in groups and backrefs keeps the two arrays inverse permutations. |
| `Groups.MakeLinks` | src/BDD/bdd/src/bdd.c:5280-5284 | backrefs is filled in as the inverse of the permutation groups. |
| `Groups.SiftGroup` | src/BDD/bdd/src/bdd.c:5294-5402 | A whole group is tried on every position and, with room for the counts, left on the best one; groups stay contiguous, groups and backrefs follow them, held functions are kept. |
| `Groups.OrderGroups` | src/BDD/bdd/src/bdd.c:5283-5410 | The groups, those with the most nodes first and those without any left out, are each left on the best position tried, until all had their turn or the budget is spent; every group keeps its variables in order and its flag, and with room for the counts the table does not grow. |
| `Groups.SortGroups` | src/BDD/bdd/src/bdd.c:5258-5282 | The groups in falling order of how many nodes there are for their variables, a permutation; and how many of them have a turn. |
| `Reorder.DynamicOrder` | src/BDD/bdd/src/bdd.c:5225-5429 | With reordering on: dead nodes go, then exactly the orderable groups are swept inside, one after the other, then the groups are swept as wholes; each old group is a group again with its flag and its variables, in the same order unless it is orderable; all held functions are kept, and the gain is the live nodes before less the nodes after; with room for the counts the same nodes are frozen, the table has not grown and the gain is not negative. With reordering off nothing changes. |
| `Reorder.OrderWithin` | src/BDD/bdd/src/bdd.c:5248-5252 | Every orderable group is swept in turn, and at a group that is not orderable nothing happens. |
| `Reorder.RegroupedOk` | src/BDD/bdd/src/bdd.c:5248-5410 | Both parts together: each group is kept with its flag and its variables, in the same order unless it is orderable. |
| `Reorder.ReorderVar` | src/BDD/bdd/src/bdd.c:5067-5139 | The variable alone is moved, towards its target and not past it; on success it directly follows its target, or is first if it is its own target. With reordering on it fails exactly if the table ends more than 5 per cent larger than the live nodes were; with reordering off exactly if it is not in place already, and nothing changes. |
| `Reorder.OrderExhaustively` | src/BDD/bdd/src/bdd.c:5460-5470 | Reordering as long as something is gained comes to an end; held functions and groups are kept as by one reordering. |
| `Reorder.UndoGroups` | src/BDD/bdd/src/bdd.c:5574-5583 | Every variable is a group by itself, in the old order, and none may be reordered inside. |
| `ReorderLimit.MustFail` | src/BDD/bdd/src/bdd.c:5051-5066 | A table of three nodes, and no table in the order asked for that is within 5 per cent of it. |
| `ReorderLimit.GivesUp` | src/BDD/bdd/src/bdd.c:5067-5139 | So on this table moving the first variable behind the last fails. |
| `Reorder.VarToGroup` | src/BDD/bdd/src/bdd.c:1989-2000 | The group whose ranks contain the variable's, -1 if there is no such variable. |
| `Reorder.SetReorderable` | src/BDD/bdd/src/bdd.c:5472-5494 | The flag of the variable's group is set, if the group has more than one variable, or reset; nothing else changes, and nothing at all for an unknown variable. |
| `Reorder.MergeVarGroups` | src/BDD/bdd/src/bdd.c:5507-5569 | With reordering on and two known variables, the groups of the two become one, and the computed table is sound, held functions kept; otherwise it fails and nothing changes. |
| `Reorder.MergedOk` | src/BDD/bdd/src/bdd.c:5536-5561 | The smaller group has moved next to the larger; the merged group has the variables of both in order and is orderable if and only if both were; every other group keeps its variables, flag and place among the others. |
| `NewVar.CreateVarAfter` | src/BDD/bdd/src/bdd.c:2108-2191 | The new variable is a group by itself placed last, first, or behind the group of v; ranks, tables and groups shift consistently, all functions and all computed-table entries stay right in the longer order. |
| `NewVar.CreateVarBefore` | src/BDD/bdd/src/bdd.c:2198-2219 | The new variable is placed behind the whole group of the variable that precedes v. |
| `NewVar.BeforeIsBefore` | src/BDD/bdd/src/bdd.c:2205-2219 | The new variable comes directly before v if and only if v is the first of its group. |
| `NewVar.NotBefore` | src/BDD/bdd/src/bdd.c:2205-2219 | In a group of two variables, before the second one means behind both. |
| `NewVar.InsertGroupBlocks` | src/BDD/bdd/src/bdd.c:2108-2191 | With a new group among the others every old group keeps its variables in order and its flag, and the new variable is a group by itself that is not orderable. |
| `NewVar.MakeFit` | src/BDD/bdd/src/bdd.c:1206-1278 | Variables up to the one asked for are added, last in the order by their ids and each in a group by itself; all that was there stays. |
| `NewVar.InsertCache` | src/BDD/bdd/src/bdd.c:2108-2191 | Every computed-table entry, constrain results included, is right for the order with a new variable in it. |
| `Nearest.ProjNearest` | src/BDD/bdd/src/bdd.c:3613-3675 | Deciding the variables by rank, keeping each bit that c still allows, leads to a point of c, and no point of c is nearer in the distance that weights variables by rank. |
| `Nearest.SameDistanceSamePoint` | src/BDD/bdd/src/bdd.c:3613-3675 | Points at the same weighted distance are the same point, so the nearest point is unique. |
| `ConstrainOps.ConstrainSplit` | src/BDD/bdd/src/bdd.c:3680-3780 | The recursion over the top variable computes the composition with the nearest-point map. |
| `ConstrainOps.BddConstrain` | src/BDD/bdd/src/bdd.c:3782-3791 | Void exactly for a void argument or the empty domain; otherwise the held edge of f composed with the nearest-point map of c. |
| `ConstrainOps.ConstrainIsNearest` | src/BDD/bdd/src/bdd.c:3613-3675 | At every point the constrained function has the value of f at the nearest point of c; on c it agrees with f. |
| `Cofactors.ConstrainCube` | src/BDD/bdd/src/bdd.c:3630-3632 | Constrained to a cube, f is its cofactor: f with the variables of the cube fixed. |
| `Cofactors.ConstrainApart` | src/BDD/bdd/src/bdd.c:3634-3637 | If no variable matters to both f and c, f is returned. |
| `ConstrainOps.ConstrainCommutes` | src/BDD/bdd/src/bdd.c:3650-3675 | Constraining commutes with complement, conjunction and disjunction. |
| `ConstrainOps.ConstrainVec` | src/BDD/bdd/src/bdd_vfns.c:405-429 | Elements i to j are overwritten by their constrained versions, all in one and the same order, the old values given up, the others untouched. |
| `ConstrainOps.ConstrainImage` | src/BDD/bdd/src/bdd_vfns.c:402-429 | The image of all inputs under the constrained vector is the image of the points of c under the original one. |
| `ConstrainOps.VecImage` | src/BDD/bdd/src/bdd_vfns.c:402-429 | The same for the edges the operation leaves in the vector, c not being the constant 0. |
| `RestrictOps.BddRestrict` | src/BDD/bdd/src/bdd.c:3901-3909 | Void exactly for a void argument or the empty domain; otherwise the held edge of the function that `Simplify.Restrict` defines along the order. |
| `RestrictOps.RestrictSplit` | src/BDD/bdd/src/bdd.c:3815-3899 | What one call does with the results for the branches: the result of the branch c leaves, the branch on the top variable, or, for a variable f does not depend on, c quantified by it. |
| `RestrictOps.RestrictAux` | src/BDD/bdd/src/bdd.c:3815-3899 | The same function for the recursion, although it skips variables above both tops and stops at constants. |
| `Simplify.RestrictOk` | src/BDD/bdd/src/bdd.c:3815-3908 | The restricted function agrees with f on c and depends on no variable that f does not depend on. |
| `Cofactors.RestrictCube` | src/BDD/bdd/src/bdd.c:3815-3908 | Restricted to a cube, f is its cofactor too. |
| `Cofactors.RestrictApart` | src/BDD/bdd/src/bdd.c:3815-3908 | If no variable matters to both f and c, f is returned. |
| `Traverse.TraversalOk` | src/BDD/bdd/src/bdd.c:644-707 | From uniform marks the recursive traversals visit exactly the reachable nodes, each once, and flip exactly their marks. |
| `Traverse.Traverse` | src/BDD/bdd/src/bdd.c:616-688 | The pointer-reversal traversals make the same calls in the same order as the recursive ones, leave the same marks, restore every link with its bits, and their actions, which run while links are reversed, have the effect they would have on the graph as it was, for any action that, as long as an invariant it keeps holds, does not look at ancestors. |
| `Traverse.ReversedIntact` | src/BDD/bdd/src/bdd.c:608-640 | When an action is called on v, at most proper ancestors of v have other links than before. |
| `Traverse.BelowIsLocal` | src/BDD/bdd/src/bdd.c:608-613 | An action that looks at nothing but nodes reachable from the one it is called on cannot tell that links are reversed. |
| `DepthFirst.VisitOrder` | src/BDD/bdd/src/bdd.c:690-718 | Both traversals report the nodes in depth-first order, the THEN side first, a node before or after all that is first met below it. |
| `DepthFirst.TraversalOrder` | src/BDD/bdd/src/bdd.c:644-707 | The same for a whole traversal from uniform marks. |
| `DepthFirst.PostIsFirst` | src/BDD/bdd/src/bdd.c:691-707 | In post-order every node comes after its children. |
| `DepthFirst.VisitPost` | src/BDD/bdd/src/bdd.c:691-707 | So a post-order traversal reports every node after its children, whatever has been visited before. |
| `Exists.SmoothOneMore` | src/BDD/bdd/src/bdd_quant.c:387-400 | Quantifying a set is quantifying its variables one on top of the other. |
| `Exists.Dual` | src/BDD/bdd/src/bdd_quant.c:75-89 | Universal quantification of the complement is the complement of existential quantification, which lets one slot pair serve both polarities of a node. |
| `Quantify.NextVar` | src/BDD/bdd/src/bdd_quant.c:443-483 | Skips exactly the list elements that are repeated or rank above the top of f. |
| `Quantify.QuantifyStep` | src/BDD/bdd/src/bdd_quant.c:435-588 | What a node's slots must hold in terms of its children's slots, for a quantified and for a remaining variable. |
| `Quantify.SlotOk` | src/BDD/bdd/src/bdd_quant.c:75-89 | The slot chosen by quantifier and inverter bit denotes the quantified function of the edge. |
| `Quantify.QuantifyAux` | src/BDD/bdd/src/bdd_quant.c:435-588 | Both slots of every node reached are filled with its two quantified functions, whatever part of the list was passed along, with exact references. |
| `Quantify.BddQuantify` | src/BDD/bdd/src/bdd_quant.c:590-615 | The result is f with the listed variables quantified existentially or universally; all slots and marks are given back, and reordering is as before. |
| `FreeSlots.FreeAll` | src/BDD/bdd/src/bdd.c:749-769 | The pointer-reversing traversal with the freeing action gives back every slot and mark and restores every link. |
| `FreeSlots.FreeIsLocal` | src/BDD/bdd/src/bdd_fns.c:1380-1392 | Freeing the slots of a node cannot tell that links are reversed, if the nodes of the traversed graph stay alive without any slot; the action keeps that so. |
| `FreeSlots.FreeSeesParents` | src/BDD/bdd/src/bdd.c:749-769 | Without that condition it can: a graph of two nodes in which the slot of the child is the last reference to its parent. |
| `AndSmooth.RelProdStep` | src/BDD/bdd/src/bdd_quant.c:866-941 | The relational product over the top variable: joined if quantified, branched otherwise. |
| `AndSmooth.LookupProduct` | src/BDD/bdd/src/bdd_quant.c:790-809 | A hit exactly when the slot of the pair, the smaller pointer first, holds the pair; its edge is held and right for the whole list. |
| `AndSmooth.InsertProduct` | src/BDD/bdd/src/bdd_quant.c:811-847 | The pair is in its slot afterwards; what was there has given back its references. |
| `AndSmooth.ProductEither` | src/BDD/bdd/src/bdd_quant.c:811-847 | The pair may be given in either order. |
| `AndSmooth.AndSmoothAux` | src/BDD/bdd/src/bdd_quant.c:866-941 | The held edge of the product quantified over the whole list, although the cache is keyed by the two edges only and not by what is left of the list. |
| `AndSmooth.BddAndSmooth` | src/BDD/bdd/src/bdd_quant.c:953-975 | The result is E vars. f and g for a list sorted by rank; the private cache ends empty with all its references given back. |
| `Compose.SubstBranch` | src/BDD/bdd/src/bdd_fns.c:1274-1323 | Parallel substitution in a branch on v: branch on what stands for v, with both sides substituted. |
| `Compose.SubstThen` | src/BDD/bdd/src/bdd_fns.c:1330-1347 | One substitution after another is the parallel substitution of the composed functions; so the two differ in general. |
| `Compose.SubstIsSmooth` | src/BDD/bdd/src/bdd_fns.c:1161-1165 | Substituting g for v is quantifying v out of f under v == g, for g without v. |
| `Compose.RenameIsSmooth` | src/BDD/bdd/src/bdd_fns.c:1161-1165 | The documented law g[u/v] = E v.(v == u and g) holds if and only if u is another variable than v or the function ignores v. |
| `Compose.RenameFails` | src/BDD/bdd/src/bdd_fns.c:1161-1165 | For u being v it fails: the literal of v is not the constant 1. |
| `Substitute.ByRank` | src/BDD/bdd/src/bdd_fns.c:1366-1378 | The array is sorted strictly by rank and holds the same records. |
| `Substitute.GatheredListing` | src/BDD/bdd/src/bdd_fns.c:1355-1383 | Sorted and closed by its sentinel, the array lists exactly the variables that have a function. |
| `Substitute.Skip` | src/BDD/bdd/src/bdd_fns.c:1284-1287 | The loop stops at the first record not above g, never beyond the sentinel. |
| `Substitute.SubstAux` | src/BDD/bdd/src/bdd_fns.c:1274-1323 | Every node reached gets its substituted function into its slot, whatever suffix of the array was passed along. |
| `Substitute.BddSubstPar` | src/BDD/bdd/src/bdd_fns.c:1348-1397 | The result at any assignment is g at the assignment in which every listed variable has the value of its function; variables without function are left alone; all slots are given back. |
| `Cubes.PrimeMaximal` | src/BDD/bdd/src/bdd_fns.c:2375-2392 | A prime implicant is a largest product below f: no product lies strictly between. |
| `Cubes.LiftIsPrime` | src/BDD/bdd/src/bdd_fns.c:2475-2512 | A prime of a cofactor, with the literal only where the other cofactor does not cover it, is a prime of the function. |
| `Cubes.LiftedIsNew` | src/BDD/bdd/src/bdd_fns.c:2490-2502 | A product that got the negative literal cannot be in the list yet. |
| `Cubes.Combined` | src/BDD/bdd/src/bdd_fns.c:2434-2515 | From lists of distinct primes that make up the two cofactors, the combination is a list of distinct primes that makes up the function. |
| `Cubes.PruneDone` | src/BDD/bdd/src/bdd_fns.c:2739-2792 | What the pruning loop leaves is a list of distinct primes that makes up f and of which no member can be left out. |
| `SumOfCubes.PrimeImplicants` | src/BDD/bdd/src/bdd_fns.c:2434-2515 | Both argument lists are consumed and a new list with a cover of v.T + v'.E by distinct primes is returned, references exact. |
| `SumOfCubes.SumOfCubesAux` | src/BDD/bdd/src/bdd_fns.c:2630-2683 | The list of cubes for f: distinct prime implicants whose disjunction is f, one reference held per element. |
| `SumOfCubes.Without` | src/BDD/bdd/src/bdd_fns.c:2710-2737 | The disjunction of the cubes other than the given one; the list is taken apart and put together again, same elements in the same order. |
| `SumOfCubes.BddIrredundant` | src/BDD/bdd/src/bdd_fns.c:2739-2792 | A new list of distinct prime implicants whose disjunction is f and from which no cube can be dropped; everything else allocated is given back; the empty list for void. |
| `Lists.List.Append` | src/BDD/bdd/utils/list.c:161-178 | The element is last, all others as before. |
| `Lists.List.Pop` | src/BDD/bdd/utils/list.c:230-250 | The first element is taken off. |
| `Lists.List.Concat` | src/BDD/bdd/utils/list.c:361-376 | The elements of both lists in order, by relinking only. |
| `Lists.List.Bisect` | src/BDD/bdd/utils/list.c:520-552 | The list is cut after its first half, the larger one if they differ; both parts are proper lists on the old elements. |
| `Lists.List.Reverse` | src/BDD/bdd/utils/list.c:140-159 | Turning every link round leaves the same elements in reverse order. |
| `Lists.List.Present` | src/BDD/bdd/utils/list.c:299-316 | Found exactly when some element passes the test. |
| `Doubles.AlignExp` | src/BDD/bdd/utils/double.c:96-177 | The mantissa is shifted right over both words by any amount, the exponent raised as much, and the inexact flag set exactly when a one bit is lost. |
| `Doubles.Normalize` | src/BDD/bdd/utils/double.c:200-226 | Nothing is lost and the exponent is the least possible. |
| `Doubles.Add` | src/BDD/bdd/utils/double.c:257-318 | The true sum rounded down to the next normalized number, flagged inexact exactly if an operand was or something is lost; if the exponent overflows, half of it. |
| `Doubles.LargestBelow` | src/BDD/bdd/utils/double.c:257-318 | No number of the format lies between a sum and what it is rounded down to. |
| `Doubles.RoundingLoss` | src/BDD/bdd/utils/double.c:257-318 | Rounding down loses at most one part in 2^46, and nothing below 2^47. |
| `Doubles.Subtract` | src/BDD/bdd/utils/double.c:321-381 | A negative difference comes out as zero flagged inexact; any other result is at least the true difference and less than one unit of the larger exponent above it, and is flagged exact if and only if both operands are exact and so is the difference. |
| `Doubles.Times2Up` | src/BDD/bdd/utils/double.c:386-397 | Multiplication by a power of two is exact and keeps the flag unless the exponent overflows; then the exponent is cut and the result flagged. |
| `Doubles.Compare` | src/BDD/bdd/utils/double.c:428-455 | -1, 0 or 1 as the first value is less than, equal to or greater than the second. |
| `CountSat.CountIsCard` | src/BDD/bdd/src/bdd_fns.c:497-511 | Counting branch by branch gives the number of satisfying assignments over the domain. |
| `CountSat.CountSkip` | src/BDD/bdd/src/bdd_fns.c:440-492 | Every domain variable skipped between a node and its child doubles the count. |
| `CountSat.Position` | src/BDD/bdd/src/bdd_fns.c:258-272 | The number of domain variables that rank above v's; the rank itself when the domain is all variables. |
| `CountSat.Distance` | src/BDD/bdd/src/bdd_fns.c:281-296 | The number of domain variables from v's to w's, for a cube or all variables. |
| `CountSat.CountNode` | src/BDD/bdd/src/bdd_fns.c:438-495 | The positive and the negative count of a shared node, from those of its children, swapped for an inverted edge. |
| `CountSat.CountSatAssignments` | src/BDD/bdd/src/bdd_fns.c:512-552 | For a cube, or all variables, that contain the support of f: flagged inexact exactly if below the number of satisfying assignments over these variables, and otherwise equal to it; at most one part in 2^46 is lost for every variable, and nothing over 46 variables or of a number below 2^47; 0 for void; 0 for the empty cube, which is right if and only if f is not the constant 1. |
| `CountSat.OverNothing` | src/BDD/bdd/src/bdd_fns.c:497-517 | Over no variables the constant 1 has one satisfying assignment and the constant 0 none, and no other function is left. |
| `Expressions.AndTokens` | src/BDD/bdd/src/bdd_factor.c:326-345 | A literal, AND and an operand read back as their conjunction wherever they stand. |
| `Expressions.Wrapped` | src/BDD/bdd/src/bdd_factor.c:190-208 | With the default parentheses an expression is read as itself in any operator context. |
| `Expressions.ParensNeeded` | src/BDD/bdd/src/bdd_factor.c:190-208 | Parentheses stand exactly where a weaker operator is an operand of a stronger one, and for each of the three pairs there is an expression that would be another function without them. |
| `Expressions.UniqueSolution` | src/BDD/bdd/src/bdd_factor.c:611-695 | Equations in which every name stands for something further down have at most one solution. |
| `Factor.OrMeans` | src/BDD/bdd/src/bdd_factor.c:361-399 | The general form stays v.T + v'.E when a literal is dropped on a side that implies the other. |
| `Factor.HandleAux` | src/BDD/bdd/src/bdd_factor.c:300-400 | The tokens printed for an edge are read, with OR < XOR < AND and the names standing for their nodes, as the edge's function, and use names of nodes below only. |
| `FactorVec.TraverseVec` | src/BDD/bdd/src/bdd_factor.c:267-294 | A traversal of the vector visits every reachable node exactly once, in depth-first order. |
| `FactorVec.NameAll` | src/BDD/bdd/src/bdd_factor.c:634-665 | Every flagged node gets a name of its own in a fixed polarity: the first element with its edge, or its number among the sub-expressions. |
| `FactorVec.HandleRoots` | src/BDD/bdd/src/bdd_factor.c:425-466 | Every element gets one true equation, as an expression or as another name of its node, and new names are given only to nodes without one. |
| `Printing.ImpliedOk` | src/BDD/bdd/src/bdd_factor.c:361-399 | The implication test, read from the nodes, holds exactly when the implication does. |
| `Printing.PrintLooksBelow` | src/BDD/bdd/src/bdd_factor.c:407-419 | What is printed for a node, implication tests included, is a function of the nodes reachable from it. |
| `FactorVec.PrintSubs` | src/BDD/bdd/src/bdd_factor.c:407-419 | What is printed is the print action repeated along the log of the traversal; every sub-expression gets one true equation under its number. |
| `FactorVec.PrintedAll` | src/BDD/bdd/src/bdd_factor.c:611-695 | The printed equations are true for the nodes' functions, complete and acyclic. |
| `Factoring.TokensBelow` | src/BDD/bdd/src/bdd_factor.c:300-400 | The names printed for an edge are those of nodes reachable from it, and not its own where it is defined. |
| `Factoring.SubsUpwards` | src/BDD/bdd/src/bdd_factor.c:682-686 | In post-order the sub-expressions are numbered as they are printed, and each uses smaller numbers only. |
| `Factoring.BddFactorVec` | src/BDD/bdd/src/bdd_factor.c:611-695 | No name has two equations, the equations have a solution, and in every solution each element of the vector stands for its function, in either style and with any choice of sub-expressions. In one style the elements come first, in order, then the sub-expressions by number; in the other the sub-expressions come first, and no name is used before its equation. |
| `DumpFormat.NodeRoundIff` | src/BDD/bdd/src/bdd.c:4019-4084 | A node record read back is the record written if and only if the variable fits 16 bits and both addresses fit 22 bits. |
| `DumpFormat.EdgeRoundIff` | src/BDD/bdd/src/bdd.c:4037-4117 | A dumped element comes back unchanged if and only if it is void or its address fits into 22 bits. |
| `DumpFormat.NodeLayout` | src/BDD/bdd/src/bdd.c:3978-4003 | As a number, most significant byte first, a node record is its variable times 2^48, its THEN address times 2^24, and its ELSE address with the inverter in bit 22. |
| `DumpFormat.EdgeLayout` | src/BDD/bdd/src/bdd.c:4037-4053 | An element is its address with the inverter in bit 22 and the inverted-input bit in bit 23; void is these two bits alone. |
| `DumpFormat.FileHeader` | src/BDD/bdd/src/bdd.c:4168-4181 | The first three words, most significant byte first, are the numbers of nodes, of elements and of variables. |
| `DumpFormat.FileNode` | src/BDD/bdd/src/bdd.c:4223-4254 | Record k is found at its offset in the dump. |
| `Dump.DumpNodes` | src/BDD/bdd/src/bdd.c:4133-4139 | Numbered in post-order, every record refers to earlier addresses only, and its address stands for the node's function. |
| `Dump.DumpVec` | src/BDD/bdd/src/bdd.c:4141-4221 | For any vector whose dump has a length that fits an int: the three words of the header, as many node records as counted beforehand, in post-order, and an edge record for each element, each as a number of the documented layout as far as its addresses have 22 bits; every record names the addresses of its children. |
| `DumpLimit.ComesBackIff` | src/BDD/bdd/src/bdd.c:4019-4254 | Every address fits, and every element read from the dump is the one written, if and only if there are at most 2^22 - 3 nodes. |
| `DumpLimit.FirstLost` | src/BDD/bdd/src/bdd.c:4019-4117 | One node more: an element at address 2^22 is read as the constant 1, or 0 if complemented. |
| `DumpLimit.MirrorSize` | src/BDD/bdd/src/bdd.c:3067-3081 | A function with one input inverted has exactly as many nodes as the function itself. |
| `Restore.RestoreNode` | src/BDD/bdd/src/bdd.c:4058-4099 | The held edge of the record's function in the present order, its variable being created first if the package does not have it. |
| `Restore.RestoreVec` | src/BDD/bdd/src/bdd.c:4223-4270 | Every element is restored to the function its record stands for, in whatever order; exactly the variables missing are created; everything else is given back. |
| `Restore.RoundTrip` | src/BDD/bdd/src/bdd.c:4141-4270 | A vector of at most 2^22 - 3 nodes dumped from one package and restored into the same or another, with any variables, contents and order, has its functions and voids again. |
| `Restore.SameEdges` | src/BDD/bdd/src/bdd.c:4141-4270 | Restored into the package it came from, the vector consists of the very same edges. |
| `Probing.ProbesDiffer` | src/BDD/bdd/utils/hash.c:420-428 | In a table of prime size p no two of the first (p + 1) / 2 quadratic probes meet. |
| `HashTable.Search` | src/BDD/bdd/utils/hash.c:346-428 | The probing loop ends at the name, at an empty bucket, or after the (p + 1) / 2 probes, having met other names only before. |
| `HashTable.Absent` | src/BDD/bdd/utils/hash.c:349-415 | If probing ends without the name, it is nowhere in the table. |
| `HashTable.HashTab.FullHandler` | src/BDD/bdd/utils/hash.c:251-320 | In the next larger table every name is found by probing and keeps the index given out for it, unless the larger table overflows while the names move. |
| `HashTable.HashTab.Lookup` | src/BDD/bdd/utils/hash.c:322-467 | A name is answered with the index it was given when first inserted, however often the table has been rehashed since; a new one gets the next index, or is reported absent. An insertion overflows only if a size to come is too small for the names that must move to it, or there is none. |
| `Rehash.FitsIff` | src/BDD/bdd/utils/hash.c:252-300 | n names of a table of size q can move to the next size p under every hash function, and are all there then, if and only if 2n is at most p + 1. |
| `Rehash.FirstSizes` | src/BDD/bdd/utils/hash.c:78-101 | From the size 53 to the size 101 of the code: 51 names always fit, 52 may not. |
| `Session.HandlesCanonical` | src/BDD/bdd/src/bdd.h:244-250 | Two handles are the same pointer exactly when they stand for the same function, and differ in the inverter bit exactly when they stand for complementary ones. |
| `Session.Execute` | src/BDD/bdd/src/bdd_extern.h:96-164 | Each client operation on the package does to the handles what the operation on Boolean functions says, constrain and restrict by the order at that moment, and to order and groups what `Commands.Arranged` says: a new variable in its place, a group merged, a flag set, a variable moved, groups kept by a reordering, and nothing otherwise. |
| `Session.PlacedNew` | src/BDD/bdd/src/bdd.c:2108-2220 | Where a new variable goes in terms of functions: behind the group of the first variable the function of a handle depends on, or of the one preceding that. |
| `Session.Run` | src/BDD/bdd/src/bdd.c:3390-3403 | Over any legal sequence of these operations from an empty package there is a run on functions, orders and groups that the package follows, and pointers are equal exactly when functions are. |
| `Commands.RestrictedAgrees` | src/BDD/bdd/src/bdd.c:3898-3908 | In a run, in whatever order a restriction is computed: agreement on c, and no new variables. |
| `Commands.Determined` | src/BDD/bdd/src/bdd.c:3390-3403 | If nothing is constrained or restricted, the functions of a run are determined by its commands, whatever was reordered or collected on the way. |
| `GroupRuns.StayTogether` | src/BDD/bdd/src/bdd.c:5497-5508 | Over any part of a run in which no single variable is moved and groups are not undone, variables of one group stay in one group. |
| `GroupRuns.MergedTogether` | src/BDD/bdd/src/bdd.c:5497-5508 | Merging brings two variables into one group, if reordering is on. |
| `GroupRuns.StayFixed` | src/BDD/bdd/src/bdd.c:5483-5487 | Over any part of a run that does not move single variables, undo the groups, merge this one or make it reorderable, a group that is not reorderable keeps its variables on consecutive ranks and in their order. |
| `GroupRuns.ResetFixes` | src/BDD/bdd/src/bdd.c:5483-5494 | Resetting the flag makes the group of the variable one of those. |
| `GroupRuns.MoveTears` | src/BDD/bdd/src/bdd.c:5052-5066 | Moving a single variable does tear a group apart. |

## Left out

- BDD_X, the don't-care operations and user terminals: `bdd_ite_aux` rewrites arguments in ways that are not pointwise for a third value. Without it `rank_swap_impossible` never holds, so exchanging ranks cannot fail and the code that takes a failed group move back is not reached; `Groups.SwapGroupsTwice` covers what it relies on.
- Edges with inverted inputs: switched off in the modelled configuration.
- Memory and node limits, block allocation, the free list and the chains and sizes of the per-rank hash tables: a new node takes any address not in use, and looking a node up is looking for it in the table.
- Load factors, and the thresholds that trigger a garbage collection or a reordering: any choice is covered, as nondeterminism. So is the order in which qsort leaves variables or groups with equally many nodes.
- Hash functions: arbitrary functions into the table range.
- The order of nodes along a chain: `bdd_process_level` visits the nodes of a level in any order.
- Statistics counters, verbose output, the garbage collection hook, and `bdd_freeze`.
- In `bdd_create_node` the fallback for children that do not rank below the variable: it is not reached, because no reordering happens inside a recursion.
- `bdd_quantify_c`, `bdd_and_smooth_c`, `bdd_subst` and the vector forms of quantification and substitution: variants over a cube or a single variable with the same recursions.
- The cache of sum-of-products lists itself: `SumOfCubes` computes shared sublists again; `SopHazard` treats the references the cache holds.
- The pre-order and the post-order traversal are one method with a flag. Counting, naming, printing and dumping call their action on the nodes of the recursion or one after the other along the log; `Traverse.Traverse` proves that calling an action in the middle of the pointer reversal comes to the same if it does not look at ancestors.
- The empty list is a header without elements rather than a null pointer, and freed headers and elements are not reused.
- `mergeSort`, `remove_elements`, sorted insertion and merging of lists: qsort and the list sort appear as `Substitute.ByRank` and as the requirement that a list is sorted by rank.
- In `bdd_factor.c` the counts and sizes behind the choice of sub-expressions: any choice and any polarity of a sub-expression is covered. One traversal order serves all passes of the same kind.
- The versions of dump and restore that write to a file.
- The four-byte fields of a dump are read as non-negative numbers.
- That the nineteen sizes in `hash.c` are primes is a requirement on the table; deletion of names, case-insensitive keys and the user's rehash function are not modelled, nor what the table looks like after an overflow inside a rehash.
- The shortest path, `bdd_eval`, cube printing, and the remaining functions of `bdd_fns.c`, which are of the same kinds as the ones modelled.
- `draw`, the interface shims, `appl.c`, the mu-calculus interpreter, the automata package and everything outside `src/BDD/bdd`; `mu.h` is not part of this model.
- SumOfCubes.SumOfCubesAux, SumOfCubes.BddIrredundant: with the cache of lists left empty; see the first of the differences above for why it cannot be in use.
- FactorVec.PrintSubs: along the log of the traversal rather than within it; its last `ensures`, `Printing.PrintLooksBelow` and `Traverse.Traverse` together say that it comes to the same.
- Doubles.Add: the exponent is an unbounded number cut at its 32-bit maximum, and MSB_MASK is taken as bit 31 of a 32-bit word.
- Reorder.ReorderVar: moves a single variable without regard to groups, as the code does; groups are not claimed to stay whole.
- Dump.DumpVec: requires that the length of the dump fits an int, as the code computes it in one; what follows an overflow is not modelled.
- Restore.RoundTrip: for vectors of at most 2^22 - 3 nodes; what reading a larger dump comes to is stated on functions (`DumpLimit.ComesBackIff`), since place 2 and the inverted-input bit stand for things outside this model.
- HashTable.HashTab.Lookup: what the table looks like, and what an insertion returns, after an overflow inside a rehash.
- HashTable.HashTab.FullHandler: the same.
- Search.TooLarge: compares with 105 per cent exactly, where the code multiplies by the float 1.05; `Sift.SiftVar`, `Groups.SiftGroup` and `Reorder.ReorderVar` use it. In the same way the budget of a sweep, 2^28 divided by the number of candidates, is exact.
