# Verified model of the concurrent cores

The repository holds four algorithms whose correctness is not visible from any one function: a
Bw-tree with its delta chains and structure changes, two memory-reclamation schemes that guard it, a
wait-free atomic snapshot, and the versioned-pointer stack that recycles NodeIDs. This project models
each of them in Dafny and proves what it promises over all inputs, all interleavings and all
reachable states.

`dafny verify dfyconfig.toml` checks the whole project.

## How the model is built

**Chains.** A logical node is an immutable chain of delta records over a sorted base array. Leaf
chains (`LeafChain`) stand for a set of key-value pairs, inner chains (`InnerChain`) for a set of
separators. Both meanings are defined by replaying the records naively. Every fast form of the source
is a method with the source's own loops and in-place scratch objects (`SortedSmallSets`,
`BloomFilters`, `ElasticNodes`), and is proved against that meaning: existence check, point lookup,
floor search, left-sibling search, both consolidations.

**The mapping table.** `LeafMachine` lets any number of writers insert, delete, consolidate, split,
remove and merge leaves; `TreeMachine` has the whole tree with half-finished splits, index-term
inserts, root replacement and consolidation. Each step is one successful compare-and-swap.
`TreeWriters` has the writers themselves as threads with their two snapshots, the help-along protocol
and the sibling walk; `TreeRefinement` shows that whatever they do, the tree goes through a run of
`TreeMachine`, each step for the purpose of the writer, and `TreeAlone` that a writer which nobody
disturbs completes its insert or delete from every reachable state. Because
chains are immutable and epochs rule out reuse of an address, "the swap succeeded" means "the chain
that was read is still the current one".

**Protocols.** The snapshot, both reclamation schemes, the stack and the set operations on top of the
tree are transition systems in which every step touches at most one shared word; runs are arbitrary
sequences of actions. History fields (start of a call, instant of its effect, version before it is
reduced to 64 bits) never influence a step, and separate lemmas tie them to the run. What the state of
each protocol holds is also told by the actions of the run alone: which items were pushed, retired or
freed, which value was written last, which step a thread has made last (`SnapshotUpdates`,
`StackHistory`, `EpochHistory`, `GcHistory`, `SetOpsHistory`, `TreeWriterEffects`).

**Where the code does less than its comments say.** The code is modelled as it is. Three of these
places break the promise, and for each one there is a concrete input that shows it and a condition
that says exactly when the code keeps the promise:

- The stealing loop of the snapshot stores into `snap[i]` instead of `snap[j]`
  (project2/snapshot.cpp:110). For every number of threads from two on there is a run that returns a
  vector the registers never held, and the code as written is linearizable exactly for at most one
  thread. A single scan is right, whatever its uninitialised buffer held, exactly when it does not
  enter the stealing branch.
- The value-collecting leaf lookup does not reset its window when it enters a merge branch
  (bwtree.h:4049-4067, unlike 3437-3442). A run of eight steps leads to a leaf on which it misses a
  value. It is exact exactly if the places of the lowest records beside the key, each taken in the base
  array of that record, cover the key in the array of the key. That is so whenever each record takes
  the same branch as the key at every merge record below it.
- `FindSplitPoint` with a lower threshold of 0 can return an index inside a run of equal keys. It
  returns a split point or -1 exactly when the threshold is at least 1 or the key in the middle is not
  the first key.

A fourth place touches memory too late: `ClearEpoch` deletes an epoch record (bwtree.h:7919) that a
joiner may still increment. The model lets the joiner do so, proves exactly when it happens, and
proves that the protocol is safe as long as the freed counter keeps its value, which is what the
comment at 7892-7894 relies on.

## Model

| member | source | states |
|---|---|---|
| SnapshotLabels.LabelClosedForm | project2/snapshot.cpp:73-77 | after n writes the label is n mod UINT_MAX, narrowed to 32-bit int and sign-extended |
| SnapshotLabels.LabelsCollideExactlyOnThePeriod | project2/snapshot.cpp:73-77 | two write counts carry the same 64-bit label iff they are congruent modulo UINT_MAX, so the period is exactly UINT_MAX |
| SnapshotLabels.LabelsDistinctWithinAPeriod | project2/snapshot.cpp:104-106 | an equal label means an unchanged register unless UINT_MAX writes intervened |
| Snapshot.CompareFrom | project2/snapshot.cpp:104-125 | clean iff all labels agree; otherwise the first differing register decides, and steals iff it was marked before |
| Snapshot.CompareCopies | project2/snapshot.cpp:104-132 | the loops on arrays: which register is marked, and what the result buffer holds in the clean, retry and stealing case |
| SnapshotProofs.ScanIsLinearizable | project2/snapshot.cpp:57-136 | in every run of any number of threads a completed scan returns the values all registers held at one instant between its start and its end; for the loop as written, whenever the scan ended in a clean double collect |
| SnapshotProofs.ScanInterval | project2/snapshot.cpp:90-99 | the recorded start of a scan is the step at which this very scan began |
| SnapshotProofs.HistoryIsTheTrace | project2/snapshot.cpp:80-84 | the history the other results speak about is the sequence of register files of the run |
| SnapshotUpdates.UpdateStoresItsValue | project2/snapshot.cpp:69-84 | in every run an update puts its value into the register of its thread, and no other step changes a value in any register |
| SnapshotUpdates.RegistersHoldLastWrites | project2/snapshot.cpp:69-84 | every register holds the value of the last update of its thread, or 0 |
| SnapshotUpdates.ScanReturnsLastWrites | project2/snapshot.cpp:57-136 | a completed scan returns, for every thread, the value of its last update before one and the same instant of the scan, under the conditions of ScanIsLinearizable |
| SnapshotUpdates.InsideACall | project2/snapshot.cpp:68-87 | a thread is inside a call exactly from its scan's start to its write |
| SnapshotProofs.ScanIsWaitFree | project2/snapshot.cpp:90-136 | a scan among n threads does at most n + 2 collects in every run, whatever the others do and however often they write |
| SnapshotUpdates.ScanTakesFewSteps | project2/snapshot.cpp:90-136 | a call can always take a step of its own, in every run, and its scan is complete after at most n^2 + 3n + 1 of them |
| SnapshotProofs.StolenSnapIsNeverNull | project2/snapshot.cpp:107-116 | in every run a stolen vector is never the null one of the initial register, has n entries, and comes from another thread |
| SnapshotAsWritten.LinearizableExactlyWhen | project2/snapshot.cpp:57-136 | for every n: all completed scans of all runs of n threads return what the registers held at one instant of the scan iff the vector is copied as intended or n is at most 1 |
| SnapshotAsWritten.ScanAsWrittenIsRightExactlyWhen | project2/snapshot.cpp:97-116 | for every completed scan of the code as written: with everything else the same, its result is right whatever `new int[n]` left in the buffer iff the scan did not enter the stealing branch |
| SnapshotAsWritten.StealAsWrittenIsRightForOneThreadOnly | project2/snapshot.cpp:109-111 | over all buffers the stealing loop copies the vector iff there is one thread |
| SnapshotProofs.LoneThreadIsAlwaysClean | project2/snapshot.cpp:90-136 | one thread alone never steals, in any run |
| SnapshotCounterexample.StealAsWrittenIsNotLinearizable | project2/snapshot.cpp:108-116 | for every n from 2 on, a run of the code as written whose result the registers held at no instant of the whole run |
| SortedSmallSets.CopyBackward | project3/sourcefile/bwtree/include/sorted_small_set.h:91-92 | shifts a range by one slot in place and leaves everything else |
| SortedSmallSets.SortedSmallSet.Insert | project3/sourcefile/bwtree/include/sorted_small_set.h:45-76 | the window becomes the old one with the value at its lower bound, or stays if an equal element is there |
| SortedSmallSets.SortedSmallSet.InsertNoDedup | project3/sourcefile/bwtree/include/sorted_small_set.h:84-96 | the window becomes the old one with the value at its upper bound |
| SortedSmallSets.SortedSmallSet.PopFront | project3/sourcefile/bwtree/include/sorted_small_set.h:119-124 | returns the first element and drops just that one |
| SortedSmallSets.SortedSmallSet.Invalidate | project3/sourcefile/bwtree/include/sorted_small_set.h:142 | empties the window |
| SortedSmallSets.InsertNoDedupKeepsOrder | project3/sourcefile/bwtree/include/sorted_small_set.h:84-96 | on a sorted window the result is sorted and has exactly one element more |
| SortedSmallSets.InsertDedupKeepsOrder | project3/sourcefile/bwtree/include/sorted_small_set.h:45-76 | on a duplicate-free sorted window the result stays so; nothing is added iff an equal element was there |
| BloomFilters.BloomFilter.Insert | project3/sourcefile/bwtree/include/bloom_filter.h:105-121 | appends the value and keeps the bit array complete |
| BloomFilters.BloomFilter.Exists | project3/sourcefile/bwtree/include/bloom_filter.h:137-160 | for every hash function, true iff the value has been inserted |
| ElasticNodes.ElasticNode.PushBack | project3/sourcefile/bwtree/include/bwtree.h:1930-1937 | appends one element in place |
| ElasticNodes.ElasticNode.PushBackRange | project3/sourcefile/bwtree/include/bwtree.h:1943-1952 | appends a range of another array in order |
| LeafChain.NavigateLeafNode | project3/sourcefile/bwtree/include/bwtree.h:4111-4258 | the loop answers what the topmost record on the pair, or else the base array, says |
| LeafChain.ScanKeyMeaning | project3/sourcefile/bwtree/include/bwtree.h:4143-4173 | the scan over the values of a key finds the pair iff the array holds it, and reports its place |
| LeafChain.LocateIsExact | project3/sourcefile/bwtree/include/bwtree.h:4111-4258 | on every well-formed chain the check is true iff replaying the records leaves the pair, and the index pair is the item's place in the base array however many records lie between |
| LeafChain.ContentsInRange | project3/sourcefile/bwtree/include/bwtree.h:1286-1380 | replaying a chain only ever leaves pairs between its low key and its high key |
| LeafChain.ItemCountIsExact | project3/sourcefile/bwtree/include/bwtree.h:1215-1380 | the counter that the record constructors maintain is the number of logical items |
| LeafRead.CopyValues | project3/sourcefile/bwtree/include/bwtree.h:3964-4001 | collects the base values that no record has decided, through both filters |
| LeafRead.NavigateLeafNode | project3/sourcefile/bwtree/include/bwtree.h:3916-4084 | the loop with its two filters and its overwritten window returns what the filter-free walk ReadFrom returns, or nothing if the window it ends with is not a range of the array |
| LeafRead.WindowIsPlaces | project3/sourcefile/bwtree/include/bwtree.h:3975-4042 | the window that the lookup ends with, however often it was overwritten, consists of the places of the lowest records beside the key, each in the base array of that record's own key |
| LeafRead.LookupMeaning | project3/sourcefile/bwtree/include/bwtree.h:3916-4084 | a value is returned, once, iff the topmost record on it inserts it, or no record decides it and its copy lies between those places; nothing is returned if they are no range of the array |
| LeafRead.LeafReadIsExact | project3/sourcefile/bwtree/include/bwtree.h:3916-4042 | without merge records the lookup returns each value of the key exactly once, although each passed record overwrites the window |
| LeafRead.LeafReadIsExactExactlyWhen | project3/sourcefile/bwtree/include/bwtree.h:3916-4084 | for all well-formed chains, the lookup is exact iff the places of the lowest records beside the key, each taken in the array of that record, are a range of the array of the key and cover every undecided copy of the key |
| LeafRead.LeafReadIsExactOnItsWay | project3/sourcefile/bwtree/include/bwtree.h:3916-4084 | the lookup is exact on every chain in which each record on the way of the key takes the same branch as the key at every merge record below it |
| LeafRead.LeafReadIsExactWhenUnnarrowed | project3/sourcefile/bwtree/include/bwtree.h:3916-4084 | the lookup is exact on every chain in which no record on another key lies above a merge record on the way of the key |
| LeafRead.LeafReadMissesBehindAMerge | project3/sourcefile/bwtree/include/bwtree.h:4049-4067 | a chain with a merge record on which the lookup returns nothing for a stored key |
| LeafReadCounterexample.LookupMissesAValueInARun | project3/sourcefile/bwtree/include/bwtree.h:4049-4067 | a run of eight steps from the empty tree to a state that contains a pair whose lookup returns nothing |
| LeafMerge.DrainOne | project3/sourcefile/bwtree/include/bwtree.h:4645-4666 | draining one record keeps the merged prefix sorted, duplicate-free and equal to what the drained records leave |
| LeafMerge.CopyRange | project3/sourcefile/bwtree/include/bwtree.h:4637-4642 | copying base items up to the next record does so too |
| LeafMerge.SkipOne | project3/sourcefile/bwtree/include/bwtree.h:4668-4673 | skipping an overwritten base item does so too |
| LeafConsolidation.CopyBase | project3/sourcefile/bwtree/include/bwtree.h:4574-4679 | the merge of one base array and the window pushes exactly the result of the branch, sorted, and leaves the window of the branches further right untouched |
| LeafConsolidation.CollectBothBranches | project3/sourcefile/bwtree/include/bwtree.h:4719-4728 | a merge record: both branches together push exactly the result, in order |
| LeafConsolidation.CollectAllValuesOnLeafRecursive | project3/sourcefile/bwtree/include/bwtree.h:4562-4736 | for every nesting of records, what is pushed is the replayed content below the high key, and the scratch arrays grow by at most the depth of the chain |
| LeafConsolidation.CollectAllValuesOnLeaf | project3/sourcefile/bwtree/include/bwtree.h:4455-4540 | consolidation is log replay: a sorted, duplicate-free array with exactly the logical pairs, as many as the item count says, for every hash function |
| LeafConsolidation.ConsolidatedChain | project3/sourcefile/bwtree/include/bwtree.h:4455-4540 | replacing the chain by the consolidated leaf keeps contents, range, count and well-formedness |
| InnerChain.NavigateInnerNode | project3/sourcefile/bwtree/include/bwtree.h:6383-6499 | the loop answers what the topmost record on the key, or else the base array of the right branch, says |
| InnerChain.FindIsExact | project3/sourcefile/bwtree/include/bwtree.h:6383-6499 | it returns the separator of the key iff the replayed node has one |
| InnerChain.SepsInRange | project3/sourcefile/bwtree/include/bwtree.h:1395-1570 | all separators lie above the low key and below the high key, and none leads to the leftmost child |
| InnerChain.SepsAreUnique | project3/sourcefile/bwtree/include/bwtree.h:1422-1480 | no key has two separators |
| InnerChain.ItemCountIsExact | project3/sourcefile/bwtree/include/bwtree.h:1395-1570 | the counter of the record constructors is the number of separators and the low key |
| InnerNavigation.NavigateInnerNode | project3/sourcefile/bwtree/include/bwtree.h:3298-3461 | early exits, location narrowing and branch choice return the child of the greatest separator <= key of the replayed node, or the low key's child |
| InnerNavigation.InsertDecides | project3/sourcefile/bwtree/include/bwtree.h:3353-3376 | the shortcut of an insert record returns the floor |
| InnerNavigation.DeleteDecides | project3/sourcefile/bwtree/include/bwtree.h:3377-3415 | the shortcut of a delete record returns the floor |
| InnerNavigation.LocationDivides | project3/sourcefile/bwtree/include/bwtree.h:3298-3461 | the location stored in a record divides the base array at the key of the record |
| InnerNavigation.PassMerge | project3/sourcefile/bwtree/include/bwtree.h:3419-3450 | the chosen merge branch sends the key to the same child as the whole chain |
| InnerConsolidation.MergeByKeyMeaning | project3/sourcefile/bwtree/include/bwtree.h:3717-3797 | merging by key yields strictly increasing separators, the records overriding equal array items |
| InnerConsolidation.MergeLoop | project3/sourcefile/bwtree/include/bwtree.h:3717-3797 | the loop over array and window pushes exactly that merge |
| InnerConsolidation.CollectBothBranches | project3/sourcefile/bwtree/include/bwtree.h:3862-3870 | both branches together, the right one with its first separator, push the result in order |
| InnerConsolidation.CollectAllSepsOnInnerRecursive | project3/sourcefile/bwtree/include/bwtree.h:3654-3882 | for every nesting of records, what is pushed is the replayed content below the high key, and the window grows by at most the depth |
| InnerConsolidation.CollectAllSepsOnInner | project3/sourcefile/bwtree/include/bwtree.h:3597-3645 | the new array is the low key and then the strictly increasing logical separators, as many as the item count says |
| InnerConsolidation.ConsolidatedChain | project3/sourcefile/bwtree/include/bwtree.h:3597-3645 | replacing the chain by it keeps separators, range, count and well-formedness |
| InnerLeftSibling.WalkStep | project3/sourcefile/bwtree/include/bwtree.h:6587-6648 | one round of the two cursors meets at most the next separator and never moves before the array while records are left |
| InnerLeftSibling.WalkDownMeaning | project3/sourcefile/bwtree/include/bwtree.h:6587-6648 | what the cursors meet is what the records leave of the array, from big to small |
| InnerLeftSibling.SecondGreatest | project3/sourcefile/bwtree/include/bwtree.h:6587-6651 | the loop ends with the second separator met, and would read before the array iff there is none |
| InnerLeftSibling.FindLeftSibling | project3/sourcefile/bwtree/include/bwtree.h:6521-6684 | for all chains the result is the second-greatest separator <= the search key; the search is defined iff the child is not the leftmost one |
| Levels.CoverIsUnique | project3/sourcefile/bwtree/include/bwtree.h:3144-3178 | the ranges of linked nodes partition the keys |
| Levels.CoverIsReached | project3/sourcefile/bwtree/include/bwtree.h:3144-3178 | moving right from a node that does not lie beyond the key ends at the node that covers it |
| Levels.SplitKeepsChain | project3/sourcefile/bwtree/include/bwtree.h:5980-6035 | splitting one node keeps the level linked, with increasing low keys |
| Levels.MergeKeepsChain | project3/sourcefile/bwtree/include/bwtree.h:5487-5552 | so does merging a node into its left neighbour |
| LeafLevel.SplitLeafIsExact | project3/sourcefile/bwtree/include/bwtree.h:2236-2283 | split record and sibling are well-formed and share the pairs of the leaf at the split key |
| LeafLevel.SplitLeafLevel | project3/sourcefile/bwtree/include/bwtree.h:5980-6035 | a split keeps the leaf level in order and the union of its contents |
| LeafLevel.MergeLeafIsExact | project3/sourcefile/bwtree/include/bwtree.h:5487-5552 | the merge record holds exactly the pairs of both leaves, over the joined range |
| LeafLevel.MergeLeafLevel | project3/sourcefile/bwtree/include/bwtree.h:5487-5552 | a merge keeps the leaf level in order and the union of its contents |
| LeafMachine.InvAlways | project3/sourcefile/bwtree/include/bwtree.h:4821-4909 | in every reachable state the linked leaves are well-formed and in order, and what left the path has been removed |
| LeafMachine.LeavesPartitionTheKeys | project3/sourcefile/bwtree/include/bwtree.h:4821-4909 | in every reachable state exactly one leaf covers a key, and the tree contains a pair iff that leaf does |
| LeafMachine.StructureChangesKeepThePairs | project3/sourcefile/bwtree/include/bwtree.h:5487-5552 | no split, remove, merge or consolidation step of any run changes the contents |
| LeafSteps.ConsolidationTakesEffect | project3/sourcefile/bwtree/include/bwtree.h:5904-5938 | in every run a consolidation leaves a base node with the same pairs, as many as the counter says, and touches nothing else |
| LeafSteps.SplitTakesEffect | project3/sourcefile/bwtree/include/bwtree.h:5980-6035 | a split moves the pairs from the split key on to a fresh leaf behind the old one; neither half is empty |
| LeafSteps.RemovalTakesEffect | project3/sourcefile/bwtree/include/bwtree.h:6085-6102 | a removed leaf keeps its pairs and takes no more records |
| LeafSteps.MergeTakesEffect | project3/sourcefile/bwtree/include/bwtree.h:5487-5552 | a merge takes the removed leaf off the level; its left neighbour has the pairs of both and the joined range |
| LeafMachine.DataStep | project3/sourcefile/bwtree/include/bwtree.h:6807-6885 | a posted insert adds its pair, which was absent; a posted delete takes it away, which was present |
| LeafMachine.LowKeysAreForLife | project3/sourcefile/bwtree/include/bwtree.h:4821-4909 | a NodeID keeps its low key from its creation on |
| LeafMachine.MergedAtMostOnce | project3/sourcefile/bwtree/include/bwtree.h:4878-4909 | once a removed leaf has been merged, no leaf can ever merge it again |
| LeafMachine.RemovedLeafHasOneMergePartner | project3/sourcefile/bwtree/include/bwtree.h:4821-4909 | until then exactly its left neighbour names it as next node; the first leaf is never removed |
| InnerLevel.SplitInnerIsExact | project3/sourcefile/bwtree/include/bwtree.h:2091-2126 | both halves are well-formed, and their separators with the low key of the right one are those of the node |
| InnerLevel.SplitKeepsIndex | project3/sourcefile/bwtree/include/bwtree.h:6118-6184 | a split leaves a node below that no index term names only as the right half of the split record next to it |
| InnerLevel.ReferencesKeepIndex | project3/sourcefile/bwtree/include/bwtree.h:5770-5812 | posting one index term for an existing node keeps the index of the level sound |
| TreeTerms.NotKnownYet | project3/sourcefile/bwtree/include/bwtree.h:5763-5802 | if the covering parent has no separator of the split key, no node of that level refers to the right half |
| TreeTerms.TermIsWellFormed | project3/sourcefile/bwtree/include/bwtree.h:5640-5652 | the high key below the split record is the logical neighbour of the new index term, even while other terms are missing |
| TreeProofs.PostTermStep | project3/sourcefile/bwtree/include/bwtree.h:5735-5812 | posting a term keeps the invariant of the whole tree |
| TreeProofs.SplitLeafStep | project3/sourcefile/bwtree/include/bwtree.h:5980-6035 | so does splitting a leaf |
| TreeProofs.SplitInnerStep | project3/sourcefile/bwtree/include/bwtree.h:6118-6184 | so does splitting an inner node |
| TreeProofs.GrowRootStep | project3/sourcefile/bwtree/include/bwtree.h:5670-5732 | so does replacing a split root |
| TreeResults.InvAlways | project3/sourcefile/bwtree/include/bwtree.h:5469-5815 | in every reachable state of the whole-tree machine all levels are linked, and every node is the first of its level, named by an index term, or the right half of a split record on its left |
| TreeEffects.StepPairs | project3/sourcefile/bwtree/include/bwtree.h:6807-6885 | a record posted on a leaf adds its pair, which was absent from the whole tree, or takes it away, which was present; no other step of the whole-tree machine changes the pairs |
| TreeResults.StepSpans | project3/sourcefile/bwtree/include/bwtree.h:5980-6184 | a split divides the range of its node at the split key; no other step changes the range of any node, and the tree gets a level exactly when its root is replaced |
| TreeEffects.StepReferences | project3/sourcefile/bwtree/include/bwtree.h:5670-5812 | what a level knows of the one below grows by the right half of a split, when its term is posted or a new root put above it, and changes at no other step |
| TreeEffects.ConsolidationTakesEffect | project3/sourcefile/bwtree/include/bwtree.h:5904-5938 | a consolidation leaves a base node with the same pairs, or the same separators |
| TreeResults.FloorReaches | project3/sourcefile/bwtree/include/bwtree.h:2846-2880 | the floor child of a covering node lies at or left of the node below that covers the key |
| TreeResults.Traverse | project3/sourcefile/bwtree/include/bwtree.h:2814-2947 | in every such state the descent from the root terminates at the one leaf whose range holds the key, whichever index terms are missing |
| TreeResults.NavigateUpper | project3/sourcefile/bwtree/include/bwtree.h:3144-3178 | moving right on an inner level terminates at the covering node |
| TreeResults.RootIsKnown | project3/sourcefile/bwtree/include/bwtree.h:2814-2830 | a writer starts on a node that is the first of the top level |
| TreeResults.FloorIsKnown | project3/sourcefile/bwtree/include/bwtree.h:5003-5025 | going down from a covering node leads to a node that the level above names |
| TreeResults.NextIsKnown | project3/sourcefile/bwtree/include/bwtree.h:5033-5050 | so does moving right from a node whose split has been finished |
| TreeWriterProofs.SnapStays | project3/sourcefile/bwtree/include/bwtree.h:5003-5060 | what a writer knows from a snapshot (its node, its low key, its next node, every child it named) stays true through every step of other threads, however old the snapshot |
| TreeWriterProofs.UnfinishedStays | project3/sourcefile/bwtree/include/bwtree.h:5953-5966 | no step touches a node whose split record has no index term yet |
| TreeWriterProofs.OutOfRangeIsKnown | project3/sourcefile/bwtree/include/bwtree.h:5754-5760 | if the split key is out of the range of an old parent snapshot, its index term has been posted |
| TreeWriterProofs.FoundIsKnown | project3/sourcefile/bwtree/include/bwtree.h:5763-5800 | if an old parent snapshot has the split item, its index term has been posted |
| TreeRefinement.PostIsEnabled | project3/sourcefile/bwtree/include/bwtree.h:5324-5360 | otherwise a successful compare-and-swap on the parent posts the missing term, with the right neighbour |
| TreeRefinement.RootIsEnabled | project3/sourcefile/bwtree/include/bwtree.h:5670-5715 | while the root NodeID is that of the snapshot, the root still has its split record, and the new root names both halves |
| TreeRefinement.StepRefines | project3/sourcefile/bwtree/include/bwtree.h:5003-5060 | each step of each writer changes the tree as an enabled step of the whole-tree machine of the same purpose (record, consolidation, split, missing index term, new root), if its snapshot still is the entry, and otherwise not at all |
| TreeRefinement.WritersRefineTheTree | project3/sourcefile/bwtree/include/bwtree.h:2814-2947 | for any number of writers and any interleaving, the trees of the run are a run of the whole-tree machine: its guards follow from the control flow of the writers and the success of the compare-and-swap |
| TreeRefinement.LoadsSucceed | project3/sourcefile/bwtree/include/bwtree.h:2846-2880 | no writer ever follows a NodeID without an entry in the mapping table, however old its snapshots |
| TreeWriterEffects.WritersChangeThePairs | project3/sourcefile/bwtree/include/bwtree.h:6807-6885 | in every run of any number of writers, an insert with an unchanged snapshot adds exactly its pair, absent before; a delete takes exactly its pair away, present before; at every other step of any writer the pairs stay the same |
| TreeWriterEffects.ReadyWriterIsOnItsLeaf | project3/sourcefile/bwtree/include/bwtree.h:2814-2947 | a writer that is ready to post on an unchanged leaf is on the one leaf of the tree that covers its key |
| TreeWriterEffects.LoadsAreFresh | project3/sourcefile/bwtree/include/bwtree.h:2814-2947 | a load puts the writer on the root, the next node or the chosen child with a snapshot of that moment |
| TreeWriterEffects.FinishSettles | project3/sourcefile/bwtree/include/bwtree.h:5469-5815 | when FinishPartialSMO returns, the index term of the split record on top has been posted; it starts over only if the parent changed or the root was replaced, and changes the tree only if the term is missing |
| TreeMissing.FinishLessens | project3/sourcefile/bwtree/include/bwtree.h:5670-5812 | every change that FinishPartialSMO makes leaves fewer index terms missing in the tree |
| TreeAlone.AWriterAloneGetsItDone | project3/sourcefile/bwtree/include/bwtree.h:6807-6885 | from every state that any number of writers reach, with any splits half finished, steps of one writer alone, each of which takes place, add exactly its pair to the tree, or take exactly its pair away |
| TreeResults.ConcurrentTraversalIsExact | project3/sourcefile/bwtree/include/bwtree.h:2814-2947 | a traversal interleaved with any steps of other threads that stands on a leaf with a high key above the search key stands on the leaf that covers it at that moment |
| SetOps.OperationsAreLinearizable | project3/sourcefile/bwtree/include/bwtree.h:6807-6885 | Insert and Delete return true iff they changed the set, as promised, at one instant of the call; false means that the pair was present (absent) at one instant of the call |
| SetOps.CallBegan | project3/sourcefile/bwtree/include/bwtree.h:6807-6830 | the recorded start of a running call is the step that made this very call |
| SetOps.OnlyCallsChangeTheSet | project3/sourcefile/bwtree/include/bwtree.h:7088-7153 | every change of the set is the successful compare-and-swap of a call |
| SetOpsHistory.ThreadFollowsItsSteps | project3/sourcefile/bwtree/include/bwtree.h:6807-6885 | the state of a call is the one that its last step leads to: a search that finds nothing to do ends it, and a compare-and-swap succeeds iff the chain that was read is still the current one |
| SetOpsHistory.CasChangesTheSet | project3/sourcefile/bwtree/include/bwtree.h:6840-6885 | a successful compare-and-swap changes the set as its call promises |
| SetOpsHistory.SearchGoesOn | project3/sourcefile/bwtree/include/bwtree.h:2814-2947 | a search can go on in every reachable state in which the leaf of its key is not being removed |
| SetOpsHistory.UndisturbedCallReturns | project3/sourcefile/bwtree/include/bwtree.h:6807-6885 | a call that nobody disturbs returns after at most three steps: false iff it has nothing to do, and true after it has changed the set as it promises |
| SetOps.SizeAccounting | project3/sourcefile/bwtree/include/bwtree.h:6883-7156 | contents + deletes not yet counted == index_size + inserts not yet counted, modulo 2^64, in every reachable state |
| SetOpsHistory.CounterCountsCalls | project3/sourcefile/bwtree/include/bwtree.h:6883-7156 | index_size is the number of successful inserts minus that of successful deletes that have counted themselves, modulo 2^64 |
| SetOps.GetSizeIsExactExactlyWhen | project3/sourcefile/bwtree/include/bwtree.h:7156 | below 2^63 pairs and threads, GetSize() is exact iff as many inserts as deletes wait to be counted |
| EpochProofs.CounterInvariant | project3/sourcefile/bwtree/include/bwtree.h:7528-7614 | each counter is joined + transient joiners - MAX_THREAD_COUNT while held or cleared, and fits 32 bits |
| EpochHistory.CountersCountCalls | project3/sourcefile/bwtree/include/bwtree.h:7573-7614 | each counter is the number of joins, transient ones included, minus the number of leaves on its epoch, minus MAX_THREAD_COUNT while held or cleared |
| EpochProofs.CleanerNeverLoadsNegative | project3/sourcefile/bwtree/include/bwtree.h:7863-7866 | the assertion in ClearEpoch holds in every run |
| EpochProofs.FreedOnlyAfterEarlierJoinersLeft | project3/sourcefile/bwtree/include/bwtree.h:7850-7932 | when a node is freed, every thread that had joined before it was unlinked has left |
| EpochHistory.RetiredItemsAreConserved | project3/sourcefile/bwtree/include/bwtree.h:7528-7932 | in every run each retired node is in the hand of its thread, on the list of an epoch that has not been deleted, or freed, as often as it was retired: nothing is freed twice, lost, or freed without being retired |
| EpochHistory.JoinedWhen | project3/sourcefile/bwtree/include/bwtree.h:7573-7614 | the history field since is the step at which the thread joined; it has not left in between |
| EpochHistory.ThreadFollowsItsSteps | project3/sourcefile/bwtree/include/bwtree.h:7528-7614 | the state of a thread is the one that its last step leads to: a join succeeds iff the epoch is neither held nor cleared, and the node retired is the one that is linked next |
| EpochHistory.WorkersGoOn | project3/sourcefile/bwtree/include/bwtree.h:7528-7614 | every worker can always take its next step |
| EpochHistory.IdleEpochIsFreed | project3/sourcefile/bwtree/include/bwtree.h:7850-7932 | an epoch that is not current and that nobody is in is freed with its whole list by four undisturbed steps of the cleaner |
| EpochHistory.BusyRoundCreatesAnEpoch | project3/sourcefile/bwtree/include/bwtree.h:7850-7932 | otherwise an undisturbed round of the cleaner creates a new epoch and changes nothing else |
| EpochHistory.DisturbedCleanerGivesBack | project3/sourcefile/bwtree/include/bwtree.h:7872-7885 | if somebody has joined after the load, the cleaner gives the epoch back unchanged |
| EpochProofs.MembersTouchLiveRecordsOnly | project3/sourcefile/bwtree/include/bwtree.h:7528-7614 | a thread inside an epoch, and the list it retires a node to, are never in a cleared epoch |
| EpochProofs.JoinerMayTouchDeletedRecord | project3/sourcefile/bwtree/include/bwtree.h:7573-7919 | a run in which a joiner increments the counter of a deleted record |
| EpochProofs.DeletedRecordIsTouchedExactlyWhen | project3/sourcefile/bwtree/include/bwtree.h:7573-7919 | a step touches a deleted record iff it is the fetch_add, or its undoing, of a thread whose last read of current_epoch_p found an epoch that the cleaner has freed since |
| EpochProofs.HeadPasses | project3/sourcefile/bwtree/include/bwtree.h:7895-7925 | the head has passed an epoch iff the cleaner has freed it at an earlier step |
| EpochProofs.HeldWasRead | project3/sourcefile/bwtree/include/bwtree.h:7573-7600 | what a joiner holds or has bounced off is the epoch that its last read found |
| EpochProofs.LateJoinerIsTurnedAway | project3/sourcefile/bwtree/include/bwtree.h:7892-7894 | if the counter keeps its value, a join succeeds iff the epoch is neither held nor cleared |
| GarbageList.GCMetaData.AddGarbageNode | project3/sourcefile/bwtree/include/bwtree.h:8792-8812 | the linked list stays sorted by delete epoch with last_p its tail and node_count its length, and asks for a collection iff it is longer than the threshold |
| GarbageList.GCMetaData.PerformGC | project3/sourcefile/bwtree/include/bwtree.h:8825-8857 | frees exactly the leading items before the minimum epoch, in order, and keeps the rest |
| GarbageList.CountBeforeIsAll | project3/sourcefile/bwtree/include/bwtree.h:8825-8857 | on a sorted list these are all items before the minimum epoch |
| ThreadLocalGc.FreeIsSafe | project3/sourcefile/bwtree/include/bwtree.h:489-503 | although the minimum is read one thread at a time, no node is freed while a thread that was inside when it was unlinked is still inside |
| GcHistory.RetiredIsFreedOrListed | project3/sourcefile/bwtree/include/bwtree.h:8792-8857 | in every run the nodes a thread has retired, each with the global epoch of that moment, are, in order, those it has freed followed by its list: each is freed once, first to last, and nothing else is |
| GcHistory.LastActiveWasRead | project3/sourcefile/bwtree/include/bwtree.h:437-445 | last_active_epoch is the global epoch that the thread read last before it wrote it |
| GcHistory.JoinedWhen | project3/sourcefile/bwtree/include/bwtree.h:7639-7650 | the history field since is the step at which the join ended; the thread has not left in between |
| GcHistory.ThreadFollowsItsSteps | project3/sourcefile/bwtree/include/bwtree.h:8792-8857 | the state of a thread is the one that its last step leads to, whatever the others did since |
| GcHistory.ThreadsGoOn | project3/sourcefile/bwtree/include/bwtree.h:8825-8857 | every thread can always take its next step; a collection either frees the next node or ends |
| GcHistory.SummaryIsTight | project3/sourcefile/bwtree/include/bwtree.h:489-503 | the minimum read one thread at a time lies between the minimum at the start of the summary and the one at present |
| GcHistory.CollectionIsComplete | project3/sourcefile/bwtree/include/bwtree.h:8825-8857 | when a collection ends, no node on the list was retired before its minimum |
| ThreadLocalGc.ListsStaySorted | project3/sourcefile/bwtree/include/bwtree.h:8792-8812 | every garbage list stays sorted and not above the global epoch |
| ThreadLocalGc.FreesWhatPerformGCTakes | project3/sourcefile/bwtree/include/bwtree.h:8825-8857 | the steps of the protocol free, first to last, exactly the items that the list routine takes |
| AtomicStack.ItemsAreConserved | project3/sourcefile/bwtree/include/atomic_stack.h:195-345 | items pushed = items popped + items on the stack as multisets, in every interleaving |
| StackHistory.PushedInOrder | project3/sourcefile/bwtree/include/atomic_stack.h:195-285 | what has been pushed are the items given to the pushes that have stored their top, in order, and a push under way writes one of its slots a step |
| StackHistory.BufferedInOrder | project3/sourcefile/bwtree/include/atomic_stack.h:227-285 | a commit pushes what has been buffered since the last one, in order |
| StackHistory.StoreTopPushesTheItems | project3/sourcefile/bwtree/include/atomic_stack.h:243-285 | storing the top puts the items of the push on the stack, in order |
| StackHistory.PoppedInOrder | project3/sourcefile/bwtree/include/atomic_stack.h:295-345 | what has been popped are the items that were on top when a compare-and-swap took them, in order |
| StackHistory.PushedIsTakenOrPresent | project3/sourcefile/bwtree/include/atomic_stack.h:195-345 | in every interleaving the items given to completed pushes are, as multisets, those taken by pops and those on the stack |
| StackHistory.PusherCanBegin | project3/sourcefile/bwtree/include/atomic_stack.h:195-285 | between two pushes every push that fits can begin |
| StackHistory.PusherGoesOn | project3/sourcefile/bwtree/include/atomic_stack.h:243-285 | a push under way can always write its next slot, or store the top when all are written |
| AtomicStack.PopTakesTheTop | project3/sourcefile/bwtree/include/atomic_stack.h:295-345 | a successful pop returns the value on top at its compare-and-swap and removes just that one |
| StackHistory.CasTakesTheTop | project3/sourcefile/bwtree/include/atomic_stack.h:322-341 | the compare-and-swap of a pop succeeds iff the top is unchanged since it was loaded; then it takes just the top item, otherwise it changes nothing and starts over with the present top |
| StackHistory.OthersKeepTheItems | project3/sourcefile/bwtree/include/atomic_stack.h:195-345 | no other step than a stored top and a successful compare-and-swap changes the stack |
| StackHistory.InsideAPop | project3/sourcefile/bwtree/include/atomic_stack.h:295-345 | a popper is inside a pop exactly from its first load to its return |
| StackHistory.PopperGoesOn | project3/sourcefile/bwtree/include/atomic_stack.h:295-345 | a popper can always begin a pop, and go on with it |
| AtomicStack.EmptyPopIsExcused | project3/sourcefile/bwtree/include/atomic_stack.h:295-345 | a pop returns nothing at a step iff, when it last loaded the top, the stack was empty or a push was under way; it has done nothing since |
| AtomicStack.VersionsGrow | project3/sourcefile/bwtree/include/atomic_stack.h:131-345 | non-null tops carry strictly increasing version counts, two tops with one count are the same top, and the version word is the count modulo 2^64 |
| AtomicStack.CasSeesEveryChange | project3/sourcefile/bwtree/include/atomic_stack.h:322-341 | equal words mean an unchanged top unless a positive multiple of 2^64 changes intervened |
| LeafSplit.FindSplitPoint | project3/sourcefile/bwtree/include/bwtree.h:2165-2208 | which index the two scans return for every threshold; it is a split point or -1 iff the threshold is at least 1 or the middle key is not the first key |
| LeafSplit.SplitIsBalanced | project3/sourcefile/bwtree/include/bwtree.h:2165-2208 | an index that is returned divides two different keys, and both halves exceed the threshold when half of the leaf does |
| LeafSplit.NoBalancedSplitIsMissed | project3/sourcefile/bwtree/include/bwtree.h:2165-2208 | -1 is returned only if no split point leaves more than the threshold on both sides |
| LeafSplit.ThresholdZeroSplitsAKey | project3/sourcefile/bwtree/include/bwtree.h:2165-2208 | on a leaf of one key a threshold of 0 gives index 1, although the leaf has no split point |
| LeafSplit.GetSplitSibling | project3/sourcefile/bwtree/include/bwtree.h:2236-2283 | the sibling and the truncated leaf hold exactly the original pairs, each in one of them |
| ForwardIterators.PairsFromKey | project3/sourcefile/bwtree/include/bwtree.h:8580-8649 | no key spans two leaves: the pairs from a key on are those of its leaf and everything behind its high key |
| ForwardIterators.ForwardIterator.Begin | project3/sourcefile/bwtree/include/bwtree.h:8242-8252 | the iterator stands before exactly the pairs from the start key on, or is at the end |
| ForwardIterators.ForwardIterator.LowerBound | project3/sourcefile/bwtree/include/bwtree.h:8580-8649 | goes on over empty leaves until there is a current pair or nothing is left |
| ForwardIterators.ForwardIterator.MoveAheadByOne | project3/sourcefile/bwtree/include/bwtree.h:8755-8780 | takes exactly the current pair off what remains |
| ForwardIterators.ForwardIterator.CurrentIsLeast | project3/sourcefile/bwtree/include/bwtree.h:8755-8780 | the current pair has the least key of what remains |
| ForwardIterators.Enumerate | project3/sourcefile/bwtree/include/bwtree.h:8580-8780 | iterating visits every pair with key >= start key exactly once, in non-decreasing key order, and reaches the end |
| ForwardIterators.NeverRemoved | project3/sourcefile/bwtree/include/bwtree.h:8580-8649 | every tree that the steps of the whole-tree machine reach can be iterated over |

## Left out

- `ConditionalInsert`, and mixing `unique_key` with several values a key: its index pairs do not fit what leaf consolidation relies on.
- Raw memory layout: placement new, allocation chunks, padding, `mmap`, destructors and `FreeNodeByPointer`.
- Backward iteration, and `Begin()` without a start key, which does not skip an empty first leaf.
- `Traverse_LRU`, the LRU cache and NodeID recycling: NodeIDs are taken as fresh.
- The claim that a removed node is never a leftmost child: `RemoveAbortOnParent` restores the same parent pointer, and the contents results do not need it.
- Remove, merge and abort steps of inner nodes, and of leaves in the whole-tree machine: leaf removal and merging are in `LeafMachine`, and chains with inner merge and delete records are covered by navigation, consolidation and left-sibling search.
- In `TreeWriters`, as in the whole-tree machine, no node is removed or merged, and `ConsolidateNode` after a posted index term is an ordinary consolidation step.
- The sizes at which a node is consolidated, split or removed: any well-formed node may be.
- The unreachable sibling that a failed split compare-and-swap leaves for reclamation.
- Weak memory: atomics are sequentially consistent.
- 64-bit wrap-around of the global epoch, more than one thread increasing it, and `UnregisterThread`, which only the destructor path calls.
- The pool destructor path of the epoch manager, and its sleep interval.
- Test, benchmark and start-up code, random numbers, and the PostgreSQL patch of project4.
- The concurrent protocols are transition systems on values, since Dafny objects have no interleaving semantics; the sequential objects (windows, filters, nodes, garbage lists, iterators) are classes.
- Keys and values are integers with their usual order.
- AtomicStack.ItemsAreConserved: assumes, as the source asks of its caller, that a push fits the array, and that fewer than 2^64 version changes happen inside one pop.
- SnapshotProofs.ScanIsLinearizable: assumes that no register is written UINT_MAX times during one scan; for the loop as written it speaks of scans that end in a clean double collect.
- LeafSplit.GetSplitSibling: stated for thresholds of at least 1, which the source's constants satisfy; `LeafSplit.FindSplitPoint` says when smaller ones are safe.
- ForwardIterators.Enumerate: no leaf is half removed while nobody changes the tree.
- LeafRead.LeafReadIsExact: chains without merge records only; `LeafRead.LeafReadIsExactExactlyWhen` covers all chains.
