# Models of BuDDy, CUDD and Parabix algorithms

Three families of algorithms from one repository, modelled and proved in Dafny.

**BuDDy's decision-diagram engine.** One array of entries holds the unique table with its hash chains, the free list,
the reference counts and the marks. `Reordering` (class `Reorderer`) exchanges adjacent variables in place, with the
nodes of one variable restructured under their identifiers, and lifts this to setting an order, exchanging two
variables and exchanging blocks. `BddKernel` (class `Kernel`) starts the table, makes nodes, collects garbage and grows
the table. `VariableOrder` puts both together: setting an order from one kernel state to the next. `Constrain`,
`Replace`, `Pairs` and `AllSat` are operations on top of the kernel; `Prime` is the search for table sizes.

**CUDD's algorithms on shared diagrams.** Nodes are found or added by index and children, so that equal diagrams are
the same node; they are modelled as values. `AndAbstract` is the one-pass relational product over complement edges,
`AddDeciders` the if-then-else of algebraic diagrams and the deciders that build no nodes, `AddWalsh` the residue and
Walsh builders, `Apa` the multi-precision arithmetic on arrays, and `MintermCount` the exact counting built on it.

**Parabix bit-stream programs.** A statement acts on a whole stream. `Parens` relates the parallel parenthesis matcher
to the stack algorithm of the same file, `U8U16` and `U8U16Kernel` the transcoder to the repository's scalar encoders,
and `Utf8Errors` its error mask to the bytes these encoders write.

## How the modules hang together

- Lists threaded through the table are described by a ghost map from entries to lists and positions (`NodeTable`);
  what a diagram denotes, and canonicity, are in `Diagram`; counting in `RefCount`.
- An exchange of variables: `ReorderTheory` (meaning, order, uniqueness, counts), `ReorderStep` (one node),
  `ReorderSweep` (the scans of whole levels), `ReorderSession` (what holds between exchanges), `BlockOrder` (orders of
  variables as lists), `Supply` (whether the free entries are enough), `Reordering` (the methods). The start and the end
  of a session: `Dependencies` (the interaction
  matrix), `ReorderStart` (counting, levels and variables), `VariableOrder` (a whole session on the kernel), `Skipped`
  (a session that goes wrong). What a session does to reference counts: `Saturation` (which may get stuck), `Parts`
  (which nodes have parents), `SessionParts` (both in terms of the table before the session).
- The kernel: `KernelTheory` (reachability, what is retained), `Collection` (marking, sweeping, building), `Startup`
  (initial table, more variables), `Kernel`; then `Operators`, `Cofactor`, `Renaming`, `Answers` (when an operation gives up), `Constrain`,
  `Replace`, `Pairs`, `AllSat`.
- In `Reordering` the `level` field of a node holds its variable, in `BddKernel` its level, as in the original.

## What the proofs found

- `blockdown` exchanges two blocks cleanly if and only if nothing stands between them or the right one is a single
  variable; otherwise the gap is woven into the right block (`BlockOrder.BlockdownExchanges`, and an order on which it
  happens in `BlockOrder.BlockdownTearsBlock`).
- `bdd_setvarorder` reaches the requested order if and only if the argument is a permutation; it checks nothing.
- `bdd_noderesize` takes the size from a search downwards that may stop at the old size or below it. The table grows
  for all values of rand() if and only if a prime lies between its size and the limit (`Prime.GrowthIff`); one step
  above a prime it keeps its size (`Prime.StuckAtPrime`). With rehashing nothing is lost when the size stays, and
  BDD_NODENUM may be raised below the maximum. Without rehashing, in the middle of an exchange, the free list then
  begins behind the table and a chain may be cut (`NodeTable.ResizedLinkedIff`, `NodeTable.ChainIsCut`).
- `mark_roots` takes the variables of a counted node from the matrix built so far. When a counted part of a root stands
  behind it in the table, variables of the root may stay unrelated (`Dependencies.LatePartMissed`), and an exchange of
  unrelated variables is skipped, which is right only without an edge between them (`ReorderSession.SkipIff`); on a
  table of ten entries a needed exchange is skipped (`Skipped.SkipNeeded`). A session
  starts correctly if and only if the matrix relates the variables of every counted node (`Reordering.Reorderer.Init`);
  it does when parts stand before their roots (`Dependencies.FoundRelates`).
- `reorder_done` takes back the references of parents only for nodes that had no count before: `bdd_setvarorder` adds to
  the count of a referenced node the number of its parents (`VariableOrder.CountGrows`). Without exchanges the count stays
  as it was if and only if it was stuck or no reachable node is a parent (`VariableOrder.Idle`). With exchanges, and while
  no count gets stuck, if and only if it was stuck or the node's function is not what another referenced node's becomes
  when the first variables of the new order get values (`VariableOrder.SetVarOrder`); so a diagram that reads the first
  variable of the new order is safe (`SessionParts.TopIsNoPart`).
- The error mask of the transcoder leaves the third position of four-byte sequences out of the scopes. So it flags the
  third byte of every such sequence in valid text (`Utf8Errors.TextFlags`), and accepts sequences whose third byte is no
  suffix (`Utf8Errors.MissingAccepted`). Below 0xF0 it is right (`Utf8Errors.MaskWithoutFour`); the exact condition
  is `Utf8Errors.MaskRightIff`.
- `bdd_resetpair` keeps the number of the table, so results cached for the old table are found afterwards, and it takes
  the variables for the levels (`Pairs.PairList.ResetPair` with the exact condition, `Pairs.StaleAnswer`).
- `Cudd_addEvalConst` looks up the cache under another key than it inserts, so it never finds its own results; the
  results are right all the same.
- `Cudd_addResidue` documents n >= 1 and m >= 2, but refuses only when both fail; the result is right for n = 0 and for
  m = 1 as well.

## Model

| member | source | states |
|---|---|---|
| `Diagram.Distinguish` | buddy-2.4/src/kernel.cpp:919-983 | In an ordered, reduced table without duplicates two different identifiers evaluate differently at some assignment, whatever the variable order is: equality of identifiers decides equality of functions |
| `Diagram.DenIsEval` | buddy-2.4/src/kernel.cpp:919-983 | A denotation that satisfies the if-then-else equation at every node is the function the table evaluates to |
| `NodeTable.WalkMeetsList` | buddy-2.4/src/kernel.cpp:934-941 | Following `next` from the head of a list meets exactly the entries of that list, each once, so chain walks terminate |
| `NodeTable.PushLinked` | buddy-2.4/src/reorder.cpp:1122-1133 | Putting a loose entry at the head of a list kept in a variable leaves every chain well linked and every other list as it was |
| `NodeTable.PopLinked` | buddy-2.4/src/reorder.cpp:1071-1072 | Taking the head off such a list does the same |
| `NodeTable.DetachLinked` | buddy-2.4/src/reorder.cpp:1114-1115 | A whole bucket chain can be taken off the table as one list; the other lists are untouched |
| `NodeTable.AppendFree` | buddy-2.4/src/kernel.cpp:1005-1022 | Entries are cut off or added; the new ones are free and linked to one another, and the last entry of the table, new or not, is linked to the old free list |
| `NodeTable.ResizedLinkedIff` | buddy-2.4/src/kernel.cpp:1014-1023 | Without rehashing, some description of the lists fits the table and the new bddfreepos and bddfreenum afterwards if and only if the table has grown |
| `NodeTable.ChainIsCut` | buddy-2.4/src/kernel.cpp:1021-1022 | A full table of five entries that keeps its size: whatever the lists are said to be, node 3 is in no bucket any more and bddfreepos is no entry |
| `RefCount.InDegreeUpdate` | buddy-2.4/src/kernel.h:135-147 | Rewriting one entry changes the number of parents of a node by exactly the edges removed and added |
| `ReorderTheory.NoParents` | buddy-2.4/src/reorder.cpp:1217-1255 | A node no allocated node points to has parent count zero, and conversely |
| `ReorderTheory.RelinkedConserved` | buddy-2.4/src/reorder.cpp:1182-1206 | Moving one node to other children, with the decrements and increments the swap performs, keeps every count equal to outside references plus parents, or stuck at the maximum |
| `ReorderTheory.StepHoldsOther` | buddy-2.4/src/reorder.cpp:1187-1206 | While nodes are restructured no node that is still needed loses its last reference, except old children of the lower variable that become garbage |
| `ReorderTheory.AfterOrdered` | buddy-2.4/src/reorder.cpp:1100-1255 | When all interacting nodes are restructured and the dead nodes freed, the table is ordered for the order with the two variables exchanged |
| `ReorderTheory.AfterUnique` | buddy-2.4/src/reorder.cpp:1100-1255 | It is again free of duplicates: a restructured node cannot coincide with an untouched one or with another restructured one |
| `ReorderTheory.AfterSameEval` | buddy-2.4/src/reorder.cpp:1100-1255 | Every identifier that survives the exchange denotes the function it denoted before |
| `ReorderTheory.CoverKept` | buddy-2.4/src/reorder.cpp:1434-1481 | If the interaction matrix relates all variables of every live diagram before the exchange, it does so afterwards, for the nodes built by the exchange too |
| `ReorderTheory.NotMarkedNoEdge` | buddy-2.4/src/reorder.cpp:1445-1463 | Variables the matrix does not relate have no edge between them, so skipping the restructuring is sound |
| `ReorderTheory.FreedConserved` | buddy-2.4/src/reorder.cpp:1217-1255 | Freeing a dead node and decrementing its children keeps all counts right |
| `ReorderStep.BuildKeeps` | buddy-2.4/src/reorder.cpp:1070-1092 | A fresh node of the upper variable keeps the whole mid-exchange invariant: lists, counts, placement, uniqueness |
| `ReorderStep.RewriteKeeps` | buddy-2.4/src/reorder.cpp:1193-1206 | The in-place rewrite of one node keeps it and makes that node restructured |
| `ReorderStep.FoundIsMade` | buddy-2.4/src/reorder.cpp:1041-1051 | A node met in the bucket of (variable, low, high) is the node wanted, although buckets are compared by children only |
| `ReorderSweep.DownEndPlaced` | buddy-2.4/src/reorder.cpp:1100-1145 | After the scan of the upper variable the working list holds exactly its nodes with a child of the lower one, and every other node is back in its bucket |
| `ReorderSweep.GcFreeRefs` | buddy-2.4/src/reorder.cpp:1217-1255 | No live node ever points to a freed one |
| `ReorderSweep.SlicesFit` | buddy-2.4/src/reorder.cpp:958-980 | The slices of the hash table given to the variables are disjoint and lie inside the table |
| `ReorderSession.PairDownKeeps` | buddy-2.4/src/pairs.cpp:98-113 | Exchanging two entries of a substitution table keeps, by variable, what it replaces, and `last` still bounds the levels where it is not the identity |
| `ReorderSession.IndependentExchange` | buddy-2.4/src/reorder.cpp:1445-1463 | When the matrix does not relate the two variables the unchanged table is already right for the exchanged order |
| `ReorderSession.SessionCanonical` | buddy-2.4/src/reorder.cpp:1434-1481 | Between exchanges two identifiers are equal if and only if they denote the same function |
| `ReorderSession.CarriedTransitive` | buddy-2.4/src/reorder.cpp:2224-2244 | What single exchanges keep is kept over any run of them: externally referenced nodes keep identifier, function and outside references, substitution tables their meaning |
| `Reordering.Reorderer.NodeResize` | buddy-2.4/src/kernel.cpp:985-1031 | Without rehashing: the new size is at most twice the old one, at most the increase more and at most the maximum, and no odd prime lies between it and these bounds, smaller or equal sizes included; the lists are right afterwards if and only if the table has grown, which it does if a prime lies between size and bounds; refused exactly at the limit |
| `Reordering.Reorderer.MakeNode` | buddy-2.4/src/reorder.cpp:1021-1092 | Finds or builds the only node of the upper variable over the two children, counts the new reference, and keeps the invariant even when the table is resized on the way. Equal children, a node that exists, and a free entry each mean success; each entry taken makes one wanted node; on failure no entry is free (or the first one lies behind the table) and the table is at its limit or has no prime to grow to |
| `Reordering.Reorderer.DownSimple` | buddy-2.4/src/reorder.cpp:1100-1145 | Relinks the nodes of the upper variable and returns the list of exactly those with a child of the lower one |
| `Reordering.Reorderer.SwapNode` | buddy-2.4/src/reorder.cpp:1158-1208 | Takes one node off the working list and leaves it restructured in place, with all counts as references plus parents |
| `Reordering.Reorderer.Swap` | buddy-2.4/src/reorder.cpp:1153-1210 | Restructures every node of the working list |
| `Reordering.Reorderer.LocalGbc` | buddy-2.4/src/reorder.cpp:1217-1255 | Frees exactly the unreferenced nodes of the lower variable; the result is a complete table for the exchanged order and no other node is touched |
| `Reordering.Reorderer.SetLevelLookup` | buddy-2.4/src/reorder.cpp:958-980 | Every variable gets a slice of the table of its own, with as many buckets as the prime search returns for slices of four entries or more; node numbers per variable stay |
| `Reordering.Reorderer.RehashAll` | buddy-2.4/src/reorder.cpp:985-1013 | Rebuilds all chains and the free list; identifiers, children and counts stay |
| `Reordering.Reorderer.PairsVardown` | buddy-2.4/src/pairs.cpp:98-113 | Exchanges the two entries in every substitution table |
| `Reordering.Reorderer.ExchangeNodes` | buddy-2.4/src/reorder.cpp:1445-1463 | Restructures, or skips by the matrix; either way the table is ordered for the exchanged order, survivors keep their functions, only nodes of the lower variable may disappear, and coverage is kept |
| `Reordering.Reorderer.SwapTables` | buddy-2.4/src/reorder.cpp:1465-1475 | var2level and level2var stay inverse to each other and differ from before by the one exchange; substitution tables follow |
| `Reordering.Reorderer.Vardown` | buddy-2.4/src/reorder.cpp:1434-1481 | One adjacent exchange keeps the whole session invariant (canonical table, counts, matrix coverage, inverse order arrays), the function of every surviving identifier and every external reference, and moves exactly two variables; the slices of the table are always those of its present size, also when it has grown on the way; at the last level nothing changes. It succeeds for unrelated variables, and when the free entries are as many as the nodes that are wanted and missing, hence with two for each node to be restructured; at the limit of the table only then |
| `Reordering.Reorderer.Varup` | buddy-2.4/src/reorder.cpp:1384-1392 | The same, one level up, with the same conditions for success |
| `Reordering.Reorderer.SetVarOrder` | buddy-2.4/src/reorder.cpp:2224-2244 | The order afterwards is the initial one with the variables of the argument put in at their levels, one after the other; it is the requested one if and only if the argument is a permutation of the variables; the session invariant and all functions are kept in any case. The order that is there already means success and no change; otherwise it fails only in a session that can come to a canonical table, with all references and functions kept, where the nodes missing for an exchange of neighbours are more than the free entries |
| `Reordering.Reorderer.MoveDown` | buddy-2.4/src/reorder.cpp:1536-1538 | The first loop moves one variable down and shifts those it passes up by one |
| `Reordering.Reorderer.MoveUp` | buddy-2.4/src/reorder.cpp:1540-1542 | The second loop does the reverse |
| `Reordering.Reorderer.SwapVar` | buddy-2.4/src/reorder.cpp:1505-1545 | The two variables change places and no other variable moves, though every variable in between is passed twice |
| `Reordering.Reorderer.LeftPast` | buddy-2.4/src/reorder.cpp:753-769 | The first loop of blockdown takes the left block below everything down to the last right variable, keeping both inner orders; it terminates because the levels of the left block only grow |
| `Reordering.Reorderer.RightUp` | buddy-2.4/src/reorder.cpp:771-785 | The second loop lifts the right variables until the first is at the old start, round by round |
| `Reordering.Reorderer.MoveBlocks` | buddy-2.4/src/reorder.cpp:745-785 | The final order as a function of the initial one, outside positions untouched; it is the clean exchange exactly when the blocks are adjacent or the right one is a single variable |
| `Reordering.ExchangeLinks` | buddy-2.4/src/reorder.cpp:787-800 | The doubly linked list of blocks has the two neighbours exchanged, also at its ends, and their positions swapped |
| `Reordering.Blockdown` | buddy-2.4/src/reorder.cpp:743-801 | Both together on the session and the block list |
| `BlockOrder.DownKeepsShuffle` | buddy-2.4/src/reorder.cpp:756-768 | Each down move of the first loop keeps both lists in order inside their common stretch and everything outside it |
| `BlockOrder.UpKeepsShuffle` | buddy-2.4/src/reorder.cpp:774-784 | So does each up move of the second loop |
| `BlockOrder.AllPassed` | buddy-2.4/src/reorder.cpp:754-769 | When the first left variable is below the last right one, the whole left block is below everything it had to pass |
| `BlockOrder.SpreadGap` | buddy-2.4/src/reorder.cpp:772-785 | Exactly when a right variable is lifted in a round |
| `BlockOrder.Interleaved` | buddy-2.4/src/reorder.cpp:772-785 | When that loop stops, right block and gap alternate |
| `BlockOrder.CleanExchange` | buddy-2.4/src/reorder.cpp:743-801 | Alternating a block with a gap gives the block followed by the gap exactly when the gap is empty or the block has at most one variable |
| `BlockOrder.BlockdownExchanges` | buddy-2.4/src/reorder.cpp:743-801 | blockdown exchanges the two blocks, gap in between kept, if and only if the gap is empty or the right block is a single variable |
| `BlockOrder.BlockdownTearsBlock` | buddy-2.4/src/reorder.cpp:743-801 | A concrete order on which the right block does not stay contiguous |
| `BlockOrder.OrderReached` | buddy-2.4/src/reorder.cpp:2224-2244 | The order after the outer loop is the requested one exactly for permutations |
| `BlockOrder.DownThenUp` | buddy-2.4/src/reorder.cpp:1536-1542 | Moving one variable down to a level and its partner up to the other is an exchange of two positions |
| `ReorderSession.SkipIff` | buddy-2.4/src/reorder.cpp:1445-1463 | Leaving the table as it is gives an ordered table for the exchanged order if and only if no node of the upper variable has a child of the lower one |
| `Dependencies.FoundRelates` | buddy-2.4/src/reorder.cpp:812-918 | If every counted part of a counted node stands before it in the table, the matrix that mark_roots builds relates all variables of every counted node |
| `Dependencies.LatePartMissed` | buddy-2.4/src/reorder.cpp:830-838 | A canonical table of ten entries with a part behind its root: two variables of the root are not related |
| `Reordering.Reorderer.AddDependencies` | buddy-2.4/src/reorder.cpp:844-859 | Exactly the pairs of variables found for the root are added to the matrix, in both directions |
| `Reordering.Reorderer.AddRefRec` | buddy-2.4/src/reorder.cpp:812-841 | Counts one more reference and, on the first visit, those of the children; the variables found are those of the new nodes, and for a node counted before those its variable was related to |
| `Reordering.Reorderer.MarkRoots` | buddy-2.4/src/reorder.cpp:866-918 | The counts become references from outside plus parents for exactly the nodes reachable from a counted node; levels become variables; the counted nodes are listed |
| `Reordering.Reorderer.StartGbc` | buddy-2.4/src/reorder.cpp:925-955 | Exactly the uncounted entries become the free list, all others go to the bucket of their variable |
| `Reordering.Reorderer.Init` | buddy-2.4/src/reorder.cpp:1617-1642 | The table is canonical for the order and its lists and counts are exact whatever the matrix is; the session invariant holds if and only if the matrix relates the variables of every counted node; every count is the old one plus the parents that are left, saturating; diagrams say by variable what they said by level |
| `Reordering.Reorderer.Done` | buddy-2.4/src/reorder.cpp:1646-1680 | The table is canonical by level again; listed roots keep count and function, all other counts are zero |
| `ReorderStart.TranslatedEval` | buddy-2.4/src/reorder.cpp:871-875 | Replacing levels by variables changes no function |
| `ReorderStart.RootsEnd` | buddy-2.4/src/reorder.cpp:889-910 | Expanded are exactly the nodes reachable from a counted node |
| `ReorderStart.SessionBegins` | buddy-2.4/src/reorder.cpp:1617-1642 | What the first loops leave is a session if and only if the matrix is complete |
| `ReorderStart.SessionEnds` | buddy-2.4/src/reorder.cpp:1646-1665 | What the last loops leave is a canonical table by level |
| `ReorderStart.PartsFirstComplete` | buddy-2.4/src/reorder.cpp:866-918 | The matrix is complete when counted parts stand before counted nodes in the kernel's table |
| `VariableOrder.SetVarOrder` | buddy-2.4/src/reorder.cpp:2224-2244 | bdd_setvarorder from one kernel state to the next: the kernel invariant is kept, the requested order is reached exactly for permutations, every referenced diagram keeps identifier and function of the variables. The count of a referenced node grows by exactly its parents in the last table; while no count gets stuck it stays as it was if and only if it was stuck or the node is no part of another referenced one under the new order, that is, no cofactor of it by values for the first variables of that order. A part's count changes in any case. Where a count gets stuck, the old count and two edges for each entry reach the maximum; with room for them in the largest table none does |
| `VariableOrder.Idle` | buddy-2.4/src/reorder.cpp:1617-1680 | A session without exchanges, complete matrix or not: the count of a referenced node becomes the old one plus its parents among the nodes reachable from counted ones, saturating; it stays as it was if and only if it was stuck or there are none |
| `VariableOrder.CountGrows` | buddy-2.4/src/reorder.cpp:1617-1680 | Idle on a table of four entries: the count of a referenced node with one parent goes from one to two |
| `SessionParts.TopIsNoPart` | buddy-2.4/src/reorder.cpp:2224-2244 | A diagram that reads the first variable of the new order is no part of another, so its count does not change while none gets stuck |
| `SessionParts.PartsMove` | buddy-2.4/src/reorder.cpp:1646-1680 | The condition on the old functions and the new order, from the last table of the session: being a part is the same as having a parent when stuck nodes are referenced from outside |
| `Parts.PartHasParent` | buddy-2.4/src/reorder.cpp:1617-1680 | In a canonical table a proper cofactor, by values for the first levels, of a referenced node is the child of some node |
| `Parts.ParentMakesPart` | buddy-2.4/src/reorder.cpp:1617-1680 | Conversely, with counts as references plus parents and stuck nodes referenced from outside, a node with a parent is such a cofactor of a referenced node |
| `SessionParts.RoomyNotStuck` | buddy-2.4/src/reorder.cpp:1617-1680 | No count gets stuck when every count not stuck before has room for two edges from each entry of the largest table |
| `Saturation.HeldWithin` | buddy-2.4/src/reorder.cpp:1158-1208 | Finding or building the two new children of a node, one reference held meanwhile, makes a count stuck only where references from outside and two edges for each entry reach the maximum |
| `Skipped.SkipNeeded` | buddy-2.4/src/reorder.cpp:1434-1481 | Setting the order 1, 2, 0 on a canonical table of ten entries skips an exchange that was needed: the table is not ordered for the order that the arrays then say |
| `Skipped.EdgeBelow` | buddy-2.4/src/reorder.cpp:1445-1463 | Under the order 1, 0, 2 any table with the conjunction of the three variables has a node of variable 0 with a child of variable 2 |
| `BlockOrder.UpLifts` | buddy-2.4/src/reorder.cpp:2235-2241 | Moving a variable up by one level leaves the order it will be lifted to as it is, so the final order is a function of the initial one and the argument |
| `Supply.Outcome` | buddy-2.4/src/reorder.cpp:1434-1481 | For a session: an exchange succeeds if the missing nodes are no more than the free entries, at the limit of the table only then, and if it fails the session is one that can fail |
| `Supply.BuiltSupply` | buddy-2.4/src/reorder.cpp:1067-1092 | Building a node takes one free entry and makes exactly one of the missing nodes |
| `Supply.AllPresent` | buddy-2.4/src/reorder.cpp:1153-1210 | When all nodes are restructured every wanted node is there |
| `Supply.MissingEnough` | buddy-2.4/src/reorder.cpp:1153-1210 | At most two nodes are missing for each node to be restructured |
| `Supply.FreeNumber` | buddy-2.4/src/reorder.cpp:1067-1092 | During a session bddfreenum is the number of free entries |
| `NodeTable.PairHashIs` | buddy-2.4/src/kernel.h:188-188 | The pairing of two unsigned numbers with its two wrap-arounds at 2^32 |
| `NodeTable.PairHashDiffers` | buddy-2.4/src/kernel.h:188-188 | While nothing wraps around different pairs have different numbers |
| `KernelTheory.HashIs` | buddy-2.4/src/kernel.cpp:93-93 | The bucket of a triple: level and low first, then high |
| `ReorderTheory.NodeHashIs` | buddy-2.4/src/reorder.cpp:115-115 | The bucket of two children in the slice of the variable |
| `Collection.MarkIs` | buddy-2.4/src/kernel.h:155-185 | The mark is the bit 0x200000, above every level; marking and unmarking undo each other |
| `RefCount.RefsRestored` | buddy-2.4/src/kernel.cpp:733-798 | References taken k times and given back k times restore the table if and only if the count stays below 1023 or was stuck there |
| `KernelTheory.Hash` | buddy-2.4/src/kernel.cpp:933-933 | The hash of a triple is a bucket of the table, with 32-bit wrap-around in the pairing |
| `KernelTheory.ReachBelow` | buddy-2.4/src/kernel.cpp:832-846 | What is reachable lies strictly below the root, and reachability is transitive |
| `KernelTheory.RetainsEval` | buddy-2.4/src/kernel.cpp:678-719 | A node kept with its children denotes the same function in the later table |
| `KernelTheory.RetainsProtected` | buddy-2.4/src/kernel.cpp:678-719 | What was protected stays protected after an operation that keeps it, also with a larger reference stack |
| `Collection.FoundIsProtected` | buddy-2.4/src/kernel.cpp:683-691 | The closed set found by the two marking loops is exactly the set reachable from the stack or from a counted node |
| `Collection.CollectedGraph` | buddy-2.4/src/kernel.cpp:678-719 | Keeping a closed set of nodes and freeing the rest leaves an ordered, reduced, duplicate-free table |
| `Collection.BuildGraph` | buddy-2.4/src/kernel.cpp:966-982 | Filling a free entry with a fitting, absent triple keeps the table canonical |
| `Collection.BuildLists` | buddy-2.4/src/kernel.cpp:966-982 | and moves that entry from the free list to the bucket of its hash |
| `BddKernel.Kernel.constructor` | buddy-2.4/src/kernel.cpp:125-179 | The initial table satisfies the invariant: two saturated terminals, all other entries free and counted; the sizes of table and caches are numbers the prime search can return |
| `BddKernel.Kernel.SetVarNum` | buddy-2.4/src/kernel.cpp:233-310 | Every new variable has its two nodes, saturated and hence never collected; nodes with a count keep triple, count and function; the error cases are exactly the bad ranges, and a crowded table, which two free entries for each new variable rule out |
| `BddKernel.Kernel.AddVariable` | buddy-2.4/src/kernel.cpp:288-301 | One round of it |
| `BddKernel.Kernel.Mark` | buddy-2.4/src/kernel.cpp:832-846 | Marks exactly the nodes reachable from its argument that were not marked already; recursion terminates by the level |
| `BddKernel.Kernel.MarkRoots` | buddy-2.4/src/kernel.cpp:683-691 | After both loops exactly the protected nodes are marked and all buckets are empty |
| `BddKernel.Kernel.SweepEntry` | buddy-2.4/src/kernel.cpp:696-713 | One entry of the sweep goes back to its bucket unmarked, or to the free list |
| `BddKernel.Kernel.Gbc` | buddy-2.4/src/kernel.cpp:678-719 | Exactly the nodes reachable from the reference stack or a positive count are left, with the same triple and count and no mark; all others form the free list and are its counted number; the operator caches are empty |
| `BddKernel.Kernel.GbcRehash` | buddy-2.4/src/kernel.cpp:649-675 | Chains and free list are rebuilt for the new size; the graph is unchanged |
| `BddKernel.Kernel.NodeResize` | buddy-2.4/src/kernel.cpp:985-1031 | With rehashing: no node changes and the invariant holds for the new size, also when the size stays; the size is at most twice the old one, at most the increase more and at most the maximum, with no odd prime between it and these bounds; the table grows if a prime lies between size and bounds; the search can end below the old size only if there is none from the old size on; refused exactly at the limit |
| `BddKernel.Kernel.Find` | buddy-2.4/src/kernel.cpp:934-941 | The chain walk returns the node with the triple, or there is none in the bucket |
| `BddKernel.Kernel.MakeRoom` | buddy-2.4/src/kernel.cpp:946-964 | Collects everything that is not protected, and nothing else; grows the table exactly when the percentage freed is no more than minfreenodes and the table can grow; at the limit there is room afterwards if and only if something was freed; on failure the table is crowded |
| `BddKernel.Kernel.MakeNode` | buddy-2.4/src/kernel.cpp:919-983 | Returns the only node for the triple (or the child when both are equal); the canonical invariant is kept through a collection and a resize; protected nodes are retained; caches stay or are emptied. Equal children and a node that exists change nothing, a free entry means success, otherwise it is as for MakeRoom; on failure everything left is protected, the percentage is low, the node is absent, and no entry is free in a table that cannot be sure to grow, or a resize may have cut the table off |
| `BddKernel.Kernel.PushRef` | buddy-2.4/src/kernel.h:225-229 | Adds one entry at the top; the operations prove that the stack of 2n+4 entries never overflows |
| `BddKernel.Kernel.PopRef` | buddy-2.4/src/kernel.h:234-236 | Takes entries off the top; the invariant and the table are not affected |
| `BddKernel.Kernel.AddRef` | buddy-2.4/src/kernel.cpp:733-745 | Counts one more reference with saturation and protects the node; refused exactly for free or unknown entries |
| `BddKernel.Kernel.DelRef` | buddy-2.4/src/kernel.cpp:782-798 | Counts one reference less with saturation; refused exactly for free, unknown or unreferenced entries |
| `BddKernel.Kernel.Canonical` | buddy-2.4/src/kernel.cpp:919-983 | Between operations two identifiers are equal if and only if they denote the same function |
| `BddKernel.Kernel.Partition` | buddy-2.4/src/kernel.cpp:919-1031 | Following `next` from bucket b meets the nodes that hash to b, each once; from bddfreepos the free entries, each once, and bddfreenum is their number |
| `BddKernel.ResetCache` | buddy-2.4/src/cache.cpp:89-93 | Every entry is emptied |
| `Startup.InitialTable` | buddy-2.4/src/kernel.cpp:138-156 | The loops write terminals and the chained free entries |
| `Startup.RaisedEval` | buddy-2.4/src/kernel.cpp:300-301 | Lowering the terminals for more variables changes no function |
| `Startup.RetainsCarries` | buddy-2.4/src/kernel.cpp:288-298 | What an operation retains keeps its meaning across the rounds |
| `Cofactor.ProjectHolds` | buddy-2.4/src/bddop.cpp:807-863 | Following c and flipping a variable only where the chosen child is 0 ends in the on-set of c, for every c other than 0 |
| `Cofactor.ProjectIsIdentity` | buddy-2.4/src/bddop.cpp:807-863 | Where c holds nothing is flipped |
| `Cofactor.BranchIsCofactor` | buddy-2.4/src/bddop.cpp:834-853 | Branching on the upper variable and joining the two recursive results gives the cofactor at every assignment |
| `Cofactor.SkipIsCofactor` | buddy-2.4/src/bddop.cpp:830-848 | With one child of c equal to 0 the result of the other child is the cofactor, whatever the variable is |
| `Constrain.ConstrainRec` | buddy-2.4/src/bddop.cpp:813-862 | For c other than 0 the result evaluates at every assignment to f at the projection of that assignment onto c; it is a node of the canonical table, cached results included, and survives collections during the recursion; for c = 0 a constant f or 0; it gives up only with a crowded table that has no diagram for the result |
| `Constrain.Branch` | buddy-2.4/src/bddop.cpp:834-853 | Two recursive results held on the reference stack and the node over them; the stack never exceeds its 2n+4 entries |
| `Constrain.ConstrainOp` | buddy-2.4/src/bddop.cpp:807-878 | The same for the operation, from an empty stack; operands and other references keep their functions; when a diagram for the result is protected it never gives up |
| `Answers.OnlyNode` | buddy-2.4/src/kernel.cpp:919-983 | In a canonical table the only diagram for a branch is the node with these children |
| `Answers.BranchHalf` | buddy-2.4/src/bddop.cpp:813-862 | A table with a diagram for a branch of generalized cofactors has one for either half |
| `Answers.IteHalf` | buddy-2.4/src/bddop.cpp:901-928 | A table with a diagram for an if-then-else has one for its cofactors by an upper variable |
| `Constrain.AgreesOn` | buddy-2.4/src/bddop.cpp:807-878 | f and its generalized cofactor agree wherever c holds |
| `Renaming.EvalReadsSupport` | buddy-2.4/src/bddop.cpp:931-951 | A diagram reads no variable outside its support |
| `Renaming.NothingToReplace` | buddy-2.4/src/bddop.cpp:933-934 | A diagram below `last` is its own renaming |
| `Renaming.ReplaceNode` | buddy-2.4/src/bddop.cpp:941-944 | Joining the renamed children at the new variable renames the node, simultaneously for all variables |
| `Renaming.SupportMatters` | buddy-2.4/src/bddop.cpp:901-928 | In a canonical table every variable of a diagram makes a difference at some assignment |
| `Renaming.ClashIsMet` | buddy-2.4/src/bddop.cpp:907-909 | The new variable is one of a renamed child, which is where BDD_REPLACE is raised, exactly when that child depends on it as a function |
| `Renaming.InjectiveNoClash` | buddy-2.4/src/bddop.cpp:907-909 | A renaming that is injective on the support has no such clash |
| `Replace.Correctify` | buddy-2.4/src/bddop.cpp:901-928 | Yields the ordered, reduced diagram of "if level then r else l" even when level lies below the tops of both; BDD_REPLACE is raised if and only if level occurs in one of them, unless the table is crowded and has no diagram for the if-then-else |
| `Replace.ReplaceRec` | buddy-2.4/src/bddop.cpp:931-951 | Without an error the result evaluates at every assignment to r at that assignment composed with the table; BDD_REPLACE is raised if and only if the variable that replaces the one of some node of r is one on which a renamed child of that node depends, unless the table is crowded and has no renaming of some node of r; cached results included |
| `Replace.ReplaceOp` | buddy-2.4/src/bddop.cpp:895-967 | The same for the operation, which never raises BDD_REPLACE for an injective table and never gives up when renamings of all nodes of r are protected; the reference stack suffices |
| `Pairs.PairList.Renumber` | buddy-2.4/src/pairs.cpp:78-84 | All tables in use get new, different numbers that stand for what the tables mean |
| `Pairs.PairList.UpdatePairsid` | buddy-2.4/src/pairs.cpp:74-88 | The number returned is no table's and nothing is cached under it, also when the counter is used up: then all tables are renumbered and the caches emptied |
| `Pairs.PairList.NewPair` | buddy-2.4/src/pairs.cpp:146-170 | A new table means no change; all tables and cached results stay right |
| `Pairs.PairList.SetPair` | buddy-2.4/src/pairs.cpp:194-213 | The table replaces the one variable by the other and is otherwise as before; other tables and all cached results stay right; refused exactly for unknown variables |
| `Pairs.PairList.Replace` | buddy-2.4/src/bddop.cpp:895-967 | bdd_replace with a registered table renames by what the table means, and keeps all of that |
| `Pairs.PairList.ResetPair` | buddy-2.4/src/pairs.cpp:322-329 | After bdd_resetpair, which keeps the number, everything is right for the table of no change if and only if the order is that of the variable numbers and nothing but the argument is cached for diagrams at level 0 under that number |
| `Pairs.StaleAnswer` | buddy-2.4/src/pairs.cpp:322-329 | A run after which it is not: the table that renamed variable 0 to 1 is reset, and for variable 0 another diagram is still cached under its number |
| `AllSat.SatCountIsSize` | buddy-2.4/src/bddop.cpp:2025-2084 | bdd_satcount is the number of satisfying assignments (exact arithmetic) |
| `AllSat.CubesPartition` | buddy-2.4/src/bddop.cpp:1966-2004 | A satisfying assignment matches exactly one reported cube and any other assignment none |
| `AllSat.CubesCount` | buddy-2.4/src/bddop.cpp:2294-2325 | The number of cubes is bdd_pathcount |
| `AllSat.CubesWeight` | buddy-2.4/src/bddop.cpp:2055-2084 | The sum of two to the number of don't cares is the number of satisfying assignments |
| `AllSat.Enumeration.Rec` | buddy-2.4/src/bddop.cpp:1966-2004 | The in-place profile reports the cubes of its argument behind what it held for the levels above, which is left alone |
| `AllSat.Enumeration.AllSat` | buddy-2.4/src/bddop.cpp:1944-1963 | The handler is called with cubes that partition the satisfying assignments; the calls are bdd_pathcount many and their sizes add up to bdd_satcount |
| `Prime.MulMod` | buddy-2.4/src/prime.cpp:50-52 | The 64-bit product does not overflow for 32-bit operands, so the result is the product modulo c |
| `Prime.NumberOfBits` | buddy-2.4/src/prime.cpp:58-70 | The position of the highest set bit |
| `Prime.IsWitness` | buddy-2.4/src/prime.cpp:74-94 | Answers yes exactly when the power with exponent src-1 is not 1 or a power on the way there is a square root of 1 other than 1 and -1 |
| `Prime.PrimeHasNoWitness` | buddy-2.4/src/prime.cpp:74-94 | No number below a prime is a witness against it |
| `Prime.IsMillerRabinPrime` | buddy-2.4/src/prime.cpp:97-110 | Accepts exactly when none of the twenty numbers drawn, each rand() modulo n - 1 plus one, is a witness, hence every prime |
| `Prime.PrimeGte` | buddy-2.4/src/prime.cpp:140-149 | The first odd number from the argument on that the draws accept; no odd prime is passed over, and the search ends at the next prime at the latest |
| `Prime.PrimeLte` | buddy-2.4/src/prime.cpp:152-161 | The result of the search downwards as a function of the argument and the draws; it ends at three at the latest |
| `Prime.ReturnIff` | buddy-2.4/src/prime.cpp:152-161 | The search from a limit can return r, for some draws, if and only if r is odd, from 3 to the limit, without easy factors, and no odd prime is passed over |
| `Prime.DivisorIsWitness` | buddy-2.4/src/prime.cpp:74-94 | Every proper divisor from two on is a witness, so every composite number can be refused |
| `Prime.NextSize` | buddy-2.4/src/kernel.cpp:989-1000 | The new table size is odd, without small factors, at most twice the old size, at most the increase more, at most the maximum, and no odd prime lies between it and these bounds |
| `Prime.GrowthIff` | buddy-2.4/src/kernel.cpp:989-1000 | It is larger than the old size for all draws if and only if a prime lies between the old size and the limit, and smaller for some draws if and only if there is none from the old size on |
| `Prime.StuckAtPrime` | buddy-2.4/src/kernel.cpp:994-1000 | For a prime size with a maximum one above it, or an increase of one, the size stays for all draws |
| `NumberTheory.Euclid` | buddy-2.4/src/prime.cpp:82-84 | A prime that divides a product divides a factor |
| `NumberTheory.RootsOfOne` | buddy-2.4/src/prime.cpp:82-84 | Square roots of 1 modulo a prime are 1 and -1 |
| `NumberTheory.FermatLittle` | buddy-2.4/src/prime.cpp:93-93 | a to the power p-1 is 1 modulo a prime p for 1 <= a < p |
| `CuddDiagram.Distinguish` | cudd-2.5.1/cudd/cuddAndAbs.c:195-367 | With complement edges, different edges over ordered reduced nodes denote different functions |
| `CuddDiagram.AndFacts` | cudd-2.5.1/cudd/cuddAndAbs.c:214-216 | The stand-in for the conjunction yields the canonical diagram of the pointwise conjunction |
| `Quantify.ExIndependent` | cudd-2.5.1/cudd/cuddAndAbs.c:286-290 | An existentially quantified function does not depend on the quantified variables |
| `Quantify.ExFactor` | cudd-2.5.1/cudd/cuddAndAbs.c:286-305 | A factor independent of the quantified variables can be taken out |
| `Quantify.ExMore` | cudd-2.5.1/cudd/cuddAndAbs.c:282-326 | Quantifying one more variable is the union of the two cofactors' quantifications |
| `Quantify.Canonical` | cudd-2.5.1/cudd/cuddAndAbs.c:195-367 | Edges with the same function are the same edge |
| `AndAbstract.Absorbed` | cudd-2.5.1/cudd/cuddAndAbs.c:286-296 | When the then-result equals an else-cofactor the else branch adds nothing, although the rest of the cube is still to be quantified there |
| `AndAbstract.Complemented` | cudd-2.5.1/cudd/cuddAndAbs.c:298-305 | When it is the complement of an else-cofactor, quantifying the other else-cofactor alone is enough |
| `AndAbstract.Manager.Skip` | cudd-2.5.1/cudd/cuddAndAbs.c:241-248 | Dropping the cube variables above both tops changes nothing |
| `AndAbstract.Manager.Exist` | cudd-2.5.1/cudd/cuddBddAbs.c:393-485 | The canonical diagram of the existential quantification, with the constant-1 shortcut and a cache that may forget |
| `AndAbstract.Manager.AndExist` | cudd-2.5.1/cudd/cuddAndAbs.c:195-367 | For all f, g and positive cubes the canonical diagram of the quantified conjunction, terminal cases, operand exchange, cube skipping, cache and shortcuts included |
| `AndAbstract.Manager.Quantified` | cudd-2.5.1/cudd/cuddAndAbs.c:282-326 | The case of a quantified top variable with its shortcuts: result 1, else-cofactors equal to or complements of the then-result |
| `Apa.ValueCons` | cudd-2.5.1/cudd/cuddApa.c:217-232 | The value of a digit array by its first digit |
| `Apa.Add` | cudd-2.5.1/cudd/cuddApa.c:217-232 | Sum and carry-out, also when the destination is an operand |
| `Apa.Subtract` | cudd-2.5.1/cudd/cuddApa.c:249-264 | Difference modulo the base power; the result tells whether there was a borrow; also in place |
| `Apa.ShortDivision` | cudd-2.5.1/cudd/cuddApa.c:279-298 | Dividend = quotient * divisor + remainder with a remainder below the divisor, in place too, for every digit as divisor: what wraps around in 32 bits comes out right |
| `Apa.ShiftRight` | cudd-2.5.1/cudd/cuddApa.c:357-370 | Half of the number with the given bit in front, in place too |
| `Apa.Copy` | cudd-2.5.1/cudd/cuddApa.c:190-201 | The destination holds the source's digits |
| `Apa.SetToLiteral` | cudd-2.5.1/cudd/cuddApa.c:385-396 | The number is the literal |
| `Apa.PowerOfTwo` | cudd-2.5.1/cudd/cuddApa.c:413-428 | The power of two if it fits, else 0 |
| `Apa.Compare` | cudd-2.5.1/cudd/cuddApa.c:445-467 | The sign of the difference, for arrays of different lengths and with leading zeros |
| `Apa.PrintDecimal` | cudd-2.5.1/cudd/cuddApa.c:558-599 | The text has digits 0 to 9 and no leading zeros, and parses back to the number: the decimal places computed are enough for every array of that many digits |
| `Apa.LeaveZeros` | cudd-2.5.1/cudd/cuddApa.c:585-595 | Skipping leading zeros, but not the last digit, keeps the value |
| `MintermCount.Halves` | cudd-2.5.1/cudd/cuddApa.c:923-938 | Twice the count of a node is the sum of the counts of its children, over any set of variables that includes the support |
| `MintermCount.Complemented` | cudd-2.5.1/cudd/cuddApa.c:932-933 | The counts of a function and its complement add up to 2^n |
| `MintermCount.NumberOfDigits` | cudd-2.5.1/cudd/cuddApa.c:143-153 | The least number of digits that holds that many bits |
| `MintermCount.Counter.Average` | cudd-2.5.1/cudd/cuddApa.c:931-938 | The mean of two numbers in place, exact even when their sum overflows the digits: the carry is shifted back in |
| `MintermCount.Counter.Aux` | cudd-2.5.1/cudd/cuddApa.c:895-953 | The array for a regular node holds its number of satisfying assignments, remembered results included, which no later step overwrites |
| `MintermCount.CountMinterm` | cudd-2.5.1/cudd/cuddApa.c:680-740 | For a diagram with complement edges the array equals the number of satisfying assignments over nvars variables |
| `AddDiagram.Distinguish` | cudd-2.5.1/cudd/cuddAddIte.c:159-237 | Different ordered reduced ADDs denote different functions |
| `AddDiagram.Satisfiable` | cudd-2.5.1/cudd/cuddAddIte.c:300-325 | A 0-1 ADD other than zero is one somewhere |
| `AddDeciders.VarToConst` | cudd-2.5.1/cudd/cuddAddIte.c:621-639 | Replacing an operand equal to f by a constant changes no value of the if-then-else |
| `AddDeciders.IteConstantIff` | cudd-2.5.1/cudd/cuddAddIte.c:159-237 | Cudd_addIteConstant returns the constant c if and only if ITE(f,g,h) is identically c |
| `AddDeciders.EvalConstIff` | cudd-2.5.1/cudd/cuddAddIte.c:256-326 | Cudd_addEvalConst returns the constant c if and only if g is c wherever f is one, f not being zero |
| `AddDeciders.Manager.IteRecur` | cudd-2.5.1/cudd/cuddAddIte.c:441-542 | The canonical ADD of the pointwise if-then-else, through the variable shortcuts and the cache |
| `AddDeciders.Manager.IteConstant` | cudd-2.5.1/cudd/cuddAddIte.c:159-237 | Without building nodes: the canonical ADD of ITE(f,g,h), or that it takes two values |
| `AddDeciders.Manager.EvalConst` | cudd-2.5.1/cudd/cuddAddIte.c:256-326 | Without building nodes: a diagram that agrees with g where f is one and is constant exactly if g is there; the background value when f is zero and g is not constant |
| `AddDeciders.Manager.Leq` | cudd-2.5.1/cudd/cuddAddIte.c:372-419 | One if and only if f is at most g at every assignment, as real numbers, minus infinity being least and plus infinity greatest |
| `AddWalsh.Offset` | cudd-2.5.1/cudd/cuddAddWalsh.c:229-230 | Adding in two steps modulo m |
| `AddWalsh.NextLayer` | cudd-2.5.1/cudd/cuddAddWalsh.c:228-243 | The layer invariant: entry i denotes (i + the number spelled by the bits so far) mod m |
| `AddWalsh.AddResidue` | cudd-2.5.1/cudd/cuddAddWalsh.c:157-270 | For all n and all m from 1 to 2^30 the ADD evaluates to the unsigned n-bit number modulo m, the variables from top on being its bits in this order, the first one the most or the least significant; NULL exactly when n < 1 and m < 2 |
| `AddWalsh.SpelledIsNumber` | cudd-2.5.1/cudd/cuddAddWalsh.c:213-217 | The index of each bit, as computed, gives this order |
| `AddWalsh.Weight` | cudd-2.5.1/cudd/cuddAddWalsh.c:213-217 | Variable top + j alone is worth 2^j, or 2^(n-1-j) with the most significant bit on top |
| `AddWalsh.WalshInt` | cudd-2.5.1/cudd/cuddAddWalsh.c:294-391 | The entry at row x and column y is -1 to the number of common ones |
| `Parens.CarryIsAfterOpen` | icgrep/array-test.cpp:104-112 | The addition behind ScanTo moves every pending parenthesis to the next one in play, on the whole stream at once |
| `Parens.ReducedOpen` | icgrep/array-test.cpp:102-133 | One iteration lowers the number of open parentheses by one exactly where a marker is under way |
| `Parens.ReducedMax` | icgrep/array-test.cpp:102-133 | and the greatest depth by one |
| `Parens.Iteration` | icgrep/array-test.cpp:102-133 | One iteration keeps the relation between streams and the counting of open parentheses |
| `Parens.Classes` | icgrep/array-test.cpp:75-85 | The Boolean expressions over the basis bits are the streams of the two parentheses |
| `Parens.MatchLoop` | icgrep/array-test.cpp:88-133 | all_closed is the set of matched closing parentheses, stream k holds those with k levels of pairs nested before them, the error bit at end of file says that an opening one is unmatched, and there are exactly as many iterations as the greatest depth |
| `Parens.ReducedPeak` | icgrep/array-test.cpp:102-133 | One iteration lowers the greatest depth of every stretch by one |
| `Parens.HeightIs` | icgrep/array-test.cpp:102-133 | A matched closing parenthesis has exactly one opening one, and its height is the greatest depth between them over the depth inside the pair |
| `Streams.ScanOne` | icgrep/array-test.cpp:104-112 | The addition behind ScanTo takes a single marker to the first position in play, or to the end of file |
| `Parens.Check` | icgrep/array-test.cpp:205-225 | The stack algorithm by counting: the greatest depth; on the stack exactly the opening parentheses after which the depth never returns, first to last, one for each depth; the closing ones without a partner, first to last |
| `Parens.MatchParens` | icgrep/array-test.cpp:64-139 | The whole program on any byte string: error bits, iterations, and the streams of matches by nesting |
| `Parens.MatchAndCheck` | icgrep/array-test.cpp:64-225 | Both on the same bytes: in-file error bits are exactly the unmatched closing parentheses of the stack algorithm, the end-of-file bit is set if and only if an opening one is unmatched, stream k of the matches holds exactly the closing ones with k levels of pairs nested before them, and the iterations are maxDepth |
| `U8U16.Bytes` | icgrep/utf8_encoder.cpp:20-50 | The bytes of a code point are its groups of six bits under the marks of the four ranges |
| `U8U16.Surrogates` | icgrep/utf16_encoder.cpp:24-49 | The two surrogates in terms of the same groups of six bits; the plane number lies between one and sixteen |
| `U8U16.UnitTwo` | icgrep/u8u16.cpp:222-254 | The bits at the last position of a two-byte sequence spell its eleven data bits |
| `U8U16.UnitThree` | icgrep/u8u16.cpp:186-254 | those of a three-byte sequence its sixteen |
| `U8U16.UnitHigh` | icgrep/u8u16.cpp:147-179 | The bits at the third position of a four-byte sequence spell the high surrogate: the bit-wise borrow subtracts one from the plane number |
| `U8U16.UnitLow` | icgrep/u8u16.cpp:199-254 | those at the fourth the low surrogate |
| `U8U16.Step` | icgrep/u8u16.cpp:69-268 | Wherever the encoding of a code point stands, what is left of it after deletion are its UTF-16 units, and no sequence reaches over its end |
| `U8U16.TranscodesText` | icgrep/u8u16.cpp:69-268 | For every sequence of code points: encode to UTF-8, read the streams, delete: the code units of the UTF-16 encoder |
| `U8U16Kernel.FourBytes` | icgrep/u8u16.cpp:129-182 | The statements under the innermost If, whether it is entered or not |
| `U8U16Kernel.LongSequences` | icgrep/u8u16.cpp:110-215 | The statements under the If for three- and four-byte sequences, entered or not |
| `U8U16Kernel.NonAscii` | icgrep/u8u16.cpp:97-243 | The statements under the outermost If, entered or not |
| `U8U16Kernel.Transcode` | icgrep/u8u16.cpp:69-268 | Each of the sixteen streams, the deletion mask and the error mask is, at every position of any input, the given Boolean function of the last four bytes, so the If-hierarchy does not affect the result; on UTF-8 input the positions left spell the UTF-16 encoding; the error mask is empty exactly for UTF-8 under the condition of MaskRightIff |
| `Utf8Errors.RuleIsUtf8` | icgrep/utf8_encoder.cpp:20-50 | The rule by position, with the third position of four-byte sequences counted as a scope, holds everywhere exactly in the encodings of texts without surrogates |
| `Utf8Errors.DecodedStands` | icgrep/utf8_encoder.cpp:20-50 | Bytes of the right shape and bounds are the encoding of the number they spell, which is a code point of that length and no surrogate |
| `Utf8Errors.BitAgainstRule` | icgrep/u8u16.cpp:222-229 | The mask is that rule everywhere except at third positions of four-byte sequences without another complaint, where it is its negation |
| `Utf8Errors.TextFlags` | icgrep/u8u16.cpp:222-229 | In a text exactly the third bytes of four-byte sequences are flagged |
| `Utf8Errors.AboveRefused` | icgrep/u8u16.cpp:222-229 | No text with a code point above 0xFFFF has an empty mask |
| `Utf8Errors.MissingAccepted` | icgrep/u8u16.cpp:222-229 | Four bytes that are no UTF-8 and have an empty mask: a four-byte sequence whose third byte is ASCII |
| `Utf8Errors.MaskWithoutFour` | icgrep/u8u16.cpp:222-229 | For bytes below 0xF0 the mask is empty exactly for UTF-8 |
| `Utf8Errors.MaskRightIff` | icgrep/u8u16.cpp:222-229 | For any bytes: the mask is empty exactly for UTF-8 if and only if there is an error elsewhere, or no third position of four, or both one with and one without a suffix |

## Left out

- NodeResize: sizes are unbounded, where the original doubles a signed integer, so from 2^30 entries on they differ. When the search ends below the old size and the table is to be rehashed, the original goes on to write behind the table that it has cut off; `BddKernel.Kernel.NodeResize` stops there without a change.
- Grow: when the table has not grown the original goes on with the entry behind it; the model stops there and reports failure, as for BDD_NODENUM.
- PrimeBelow: above 32 bits, where the original has no such numbers, only the set of possible results is described.
- AddVariable: lowers the terminals in each round instead of once after the last one; nothing in between reads their level. The arrays bddvar2level and bddlevel2var, equal to the identity there, and the resizing of pairs and caches are not part of the kernel model.
- constructor: as for PrimeGte, sizes of at least two and a prime between them and the end of the 32-bit numbers are assumed; the caches other than those of replacement and of the miscellaneous operations are left out.
- PrimeGte: a prime between the argument and the end of the 32-bit numbers is assumed; without one the search wraps around to 1, where the original divides by zero.
- PrimeLte: arguments below three are excluded, as the original then reaches 1.
- IsMillerRabinPrime: rand() is a function of the number under test and the round and may take any value; nothing is claimed about probability.
- MoveBlocks: the two blocks are given as lists of variables in their current order, each contiguous, as the tree of blocks keeps them.
- SwapVar: the refusal when variable blocks exist is not modelled, nor for orders; entries of neworder outside the variables are excluded, as the original indexes arrays with them.
- SetPair: only variables, not diagrams set by bdd_setbddpair, of which bdd_replace uses the top variable; tables are never freed, are fewer than 2^29, and are entries of a list instead of records on the heap. The caches keep their size.
- FoundRelates: one direction only; a matrix may be complete by way of other roots although a part stands behind its root. The exact condition for the start of a session is stated in terms of the matrix, which is a function of the table.
- Transcode: a sequence cut off at the end is flagged at the end-of-file position, which the mask as a stream over the input may not deliver; nothing in the repository reads the mask.
- MatchLoop: the number of match streams is not bounded by the count fixed at construction of the kernel; the variable `index` is the length of the list of streams.
- AddResidue: two's complement is not modelled; the variables exist beforehand; moduli are at most 2^30, beyond which sums of the original overflow.
- EvalConst: for f equal to zero and g constant the code returns g and not the background value; the code is followed.
- ShortDivision: the signed product wraps around, which the C standard leaves undefined.
- PrintDecimal: the logarithm is taken without rounding; characters are their digit values.
- CountMinterm: only BDDs, not ADDs with several constants; arrays are not freed.
- SetVarOrder: `VariableOrder.SetVarOrder` asks for a complete matrix (see `Reordering.Reorderer.Init`); what the exchanges do to a session that starts with an incomplete one is not modelled beyond `ReorderSession.SkipIff` and the run of `Skipped.SkipNeeded`. Which counts get stuck when there is no room is not described beyond the bound.
- Sifting, window permutation, random reordering, automatic reordering with its exception and retry, and the code under USERESIZE.
- bdd_apply, bdd_ite, quantification, composition, simplification and restriction of BuDDy; for CUDD's operations pointwise conjunction and node construction are taken as functions.
- Memory exhaustion, hooks, statistics, argument-check macros, printing of diagrams and freeing.
- Reference counts in CUDD only decide whether the cache is used or an array kept; there the choice is arbitrary or a parameter. Caches may forget anything at any time.
- Floating point: satcount and pathcount are exact integers without their caches; leaf values of ADDs are reals with two infinities, and constants within the tolerance of the constant table are not merged.
- The 32-bit digits of cuddApa, division by an unsigned int, comparison of ratios, printing in hexadecimal and exponential form.
- XorExistAbstract, BooleanDiff, VarIsDependent, ADD apply and abstraction operators, transfer between managers, the tree of variable ranges.
- Pipelines, buffers, code generation, and the encoders' queries other than length and bytes; shifts and masks of the encoders are written as division, remainder and sums of disjoint bit fields.
