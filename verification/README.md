# BusTub, verified

A Dafny model of the hard parts of the BusTub database system, with proofs. It covers three groups of code.

**The buffer-pool stack.** `BufferPoolManagerInstance` keeps disk pages in a fixed set of frames. It sits on an
extendible hash table (page id to frame) and on an LRU-K replacer made of two doubly linked lists. Each of the three is a
class whose object state is tied to a value, and each operation is proved to compute a function on that value
(`ExtendibleHash` over `Directory`, `Replacer` over `LruK`, `BufferPool` over `Pool`). The values are then related to what
a user sees: a finite map, an access history, a flat page store. The main results range over whole runs:
`PoolRuns.RunRefinesStore`, `LruK.RunRefinesHistory`, `PoolPolicy.RunFollowsLedger` (each frame handed out is the one the
calls so far decide), and the directory invariant that every operation of the table keeps.
`PoolClient.RunAll` drives one buffer-pool object through a whole run. Public operations hold one latch for their whole
body, so a run is a sequence of atomic steps; flush-all, which takes the latch once per frame, is a step per frame.

**Query planning and optimization.** Plans and expressions are datatypes with a denotational row-sequence meaning
(`Expressions`, `Relations`, `Plans`); `Operators` says what each row operator yields without its recursion. The
optimizer's rules are functions on plans (`Optimizer`), proved to keep rows and their order and to hand each other the
conditions they need; their output has nothing left to rewrite, so optimizing is idempotent (`Fixpoint`). The planner's
two-phase lowering of aggregate queries (`Binding`, `Aggregates`, `PlannerContext`, `Lowering`) and the two independent
walks over a FROM tree, the binder's star expansion and the planner's (`FromClause`), are proved against meanings that
read columns by name and aggregates off groups. `Selects` stacks a whole select statement on an input, `Statements` ties
its grouping, star, names and LIMIT to the words of the statement, and `Queries` nests statements in subqueries and common
table expressions; planning changes the bound statements it passes over, so the planner is a state machine there. `QueryTyping.QueryPlansExactly` says which queries it accepts, and `QueryMeaning.OptimizedQueryMeans` runs
from the bound query, however deep, to the rows of the optimized plan.

**Execution and rollback.** The values, filter and projection executors are one class of stateful pull-based objects
(`Executors`); draining a stack yields its plan's rows. `Transactions`, `Rollback` and `IndexRollback` model the write
sets of a transaction and the undo log that Abort replays backwards, down to the free bytes of a page, with the exact
conditions under which the state at Begin returns.

Where the code does not do what it promises, the model follows the code. Such a place has a lemma with the exact
condition and, where it helps, a concrete input:

- The replacer orders frames with k or more accesses by last access, not by the documented k-th previous one, and those
  with fewer by first access, not by last (`LruK.DocumentedExactlyForK1`). Its bound check admits one id too many
  (`LruK.StuckExactly`).
- Fetching a page id that a freed frame still carries breaks the page table later (`Pool.FetchMissInv`,
  `PoolRuns.StaleFrameUnmaps`).
- Merging a filter into a join ignores the join type (`FilterJoin.MergeExactly`, `Optimizer.MergeNodeExactly`) and throws
  on a constant predicate that is no boolean, such as NULL (`Optimizer.MergeFilterSucceedsExactly`).
- The order-by and index-join rules ignore a scan's own filter (`Optimizer.FilteredScanExactly`,
  `Optimizer.FilteredJoinExactly`).
- A common table expression with aggregate calls cannot be referenced twice: the first planning swaps its calls for
  placeholders (`Queries.PlansAgainExactly`, `QueryTyping.DoubledCteRefused`).
- A delete mark is logged even when it was refused, and an update after a failure is not logged
  (`Rollback.AbortRestoresExactly`). Commit then removes more than was marked, or stops at an assertion
  (`Rollback.CommitRemovesOwnMarksExactly`).
- A page never gives a slot back, so undoing an update may find no room, and Abort does not look at that
  (`Rollback.AbortRestoresIffRoom`, `Rollback.FullPageKeepsUpdate`).
- Undoing an index insert calls a removal that does nothing (`IndexRollback.AbortWithoutRemovalExactly`).

`dafny verify dfyconfig.toml` checks everything.

## Conventions of the model

- Insertion into the hash table takes a ghost depth at which no bucket_size + 1 keys agree. Without one the source's loop
  does not end (`Directory.HeldKeysAreSpread`). `PageHash.PageIdsSpread` supplies it for page ids.
- `Page::ResetMemory` zeroes the data only. A disk page never written reads as zeroes. A bucket is full at its size.
- Clients write only to pages they have pinned, report a write no later than the unpin that drops the pin count to 0, and
  fetch only live pages: `PoolRuns.Allowed`.
- A one-column index lists its table by key, ties in table order, its key is never null, and column names are distinct
  within a table (`Plans.CatalogOk`). Sorting is stable, groups come in order of first appearance.
- Right and outer joins have rows here, though the executors refuse them. The step that combines aggregate values is empty
  in the source; COUNT, SUM, MIN and MAX have their SQL meaning here, from the source's initial values on.
- In `FromClause` a subquery carries the plan of its own select statement; `Queries` derives that plan and its names.
- A statement's WITH clause replaces the common table expressions in scope, and the expressions of one clause do not see
  each other. One is planned at each reference to it, and never if there is none.
- Group-by items carry no alias and column references are qualified by their table, as the binder makes them.
- A table heap is a map from slots to tuples with a size and a delete mark, and the number of slots of each page. Emptying
  a slot that holds nothing, and touching one beyond a page's slots, stops at an assertion. An insert is told the page
  that the search for space ends at, and whether there is one.

## Model

| member | source | states |
|---|---|---|
| PoolRuns.RunRefinesStore | src/buffer/buffer_pool_manager_instance.cpp:52-220 | in every run of New, Fetch, client write, Unpin, Flush, flush of one frame, Flush-all and Delete that keeps the client contract, pool plus disk is a flat page store: every answer is one the store decides (New gives the next unused id, New and Fetch of an unpinned page fail exactly when as many pages are pinned as there are frames, Unpin and Delete answer by the page's pins), every live page reads as last written, and the accounting invariant holds |
| PoolRuns.StepRel | src/buffer/buffer_pool_manager_instance.cpp:52-220 | one operation of such a run keeps the relation between pool, disk and store, and its answer is one the store allows |
| PoolRuns.UntouchedKeepsContents | src/buffer/buffer_pool_manager_instance.cpp:52-220 | over any such run a live page that nobody writes or deletes keeps its contents, wherever evictions move it |
| PoolRuns.AllPinned | src/buffer/buffer_pool_manager_instance.cpp:54-64 | every frame is pinned exactly when the client has as many pages pinned as the pool has frames |
| PoolRuns.RelContent | src/buffer/buffer_pool_manager_instance.cpp:108-151 | under the relation a live page's content (its frame if resident, else the disk) is the store's |
| PoolRuns.StartRel | src/buffer/buffer_pool_manager_instance.cpp:22-43 | a new pool is related to the empty store |
| PoolRuns.FetchReads | src/buffer/buffer_pool_manager_instance.cpp:108-151 | a fetch that succeeds hands out a frame that holds the page's stored contents and is pinned once more |
| PoolRuns.PinnedStays | src/buffer/buffer_pool_manager_instance.cpp:52-220 | while a page has an outstanding pin no operation moves it to another frame |
| PoolRuns.PinnedStaysInRun | src/buffer/buffer_pool_manager_instance.cpp:52-220 | over any run in which the page's pins stay positive, its frame is the same at every position |
| PoolRuns.FailsOnlyWhenAllPinned | src/buffer/buffer_pool_manager_instance.cpp:52-151 | New, and Fetch of an absent page, fail exactly when every frame is pinned; a failed call changes nothing, not even the next page id |
| PoolRuns.EvictionKeepsContents | src/buffer/buffer_pool_manager_instance.cpp:69-85 | recycling a frame keeps its page's contents if and only if the frame is dirty or the disk already has them: an unreported write is lost |
| PoolRuns.LiveIsSafe | src/buffer/buffer_pool_manager_instance.cpp:108-137 | in a run that keeps the contract a live page id is never remembered by a freed frame, so fetching it is safe |
| PoolRuns.StaleFrameUnmaps | src/buffer/buffer_pool_manager_instance.cpp:117-137 | a run of eight calls on two frames that fetches a page again after deleting it: it ends with that page pinned in a frame but not in the page table |
| PoolRuns.FlushAllRel | src/buffer/buffer_pool_manager_instance.cpp:190-194 | flush-all, frame by frame, keeps the relation to the store |
| PoolRuns.FlushAllIsFrames | src/buffer/buffer_pool_manager_instance.cpp:190-194 | flush-all is the run of one flush per frame, so other calls may come between them |
| PoolPolicy.StepTied | src/buffer/buffer_pool_manager_instance.cpp:52-220 | a ledger kept from the operations and their answers alone (free frames, access history of every frame, who is dirty, what is on disk) goes on describing the pool, and the answer is the one it asks for: New and a fetch that misses answer the first free frame, else the frame LRU-K evicts by that history |
| PoolPolicy.RunFollowsLedger | src/buffer/buffer_pool_manager_instance.cpp:52-220 | over every run that keeps the client contract the replacer holds exactly the history of the operations, every hit and every miss counted, and every frame handed out is the one that history decides |
| PoolPolicy.StartTied | src/buffer/buffer_pool_manager_instance.cpp:22-43 | a new pool is described by the blank ledger: all frames free in order, no access |
| PoolPolicy.LedgerDecidesPool | src/buffer/buffer_pool_manager_instance.cpp:52-220 | ledger and client view leave nothing open: two pools they both describe have the same frames, page table, free list, disk and next id |
| Pool.NewInv | src/buffer/buffer_pool_manager_instance.cpp:52-106 | New keeps the accounting invariant: free list and residents partition the frames, the page table is the bijection of residents, the replacer tracks exactly the residents, evictable iff pin count 0 |
| Pool.FetchHitInv | src/buffer/buffer_pool_manager_instance.cpp:144-151 | fetching a resident page keeps the accounting invariant; that it counts as an access is `PoolPolicy.StepTied` |
| Pool.FetchMissInv | src/buffer/buffer_pool_manager_instance.cpp:117-143 | fetching an absent page keeps the accounting invariant exactly when the id was handed out and no freed frame still remembers it |
| Pool.UnpinInv | src/buffer/buffer_pool_manager_instance.cpp:153-174 | Unpin keeps the accounting invariant; the last unpin makes the frame evictable |
| Pool.FlushInv | src/buffer/buffer_pool_manager_instance.cpp:176-188 | Flush keeps the accounting invariant; when it answers true and what it changes is `Pool.FlushSpec` |
| Pool.FlushSpec | src/buffer/buffer_pool_manager_instance.cpp:176-188 | Flush answers true exactly for a resident page, pinned or not; the disk then has the frame's data, the frame is clean, and no other frame, page, binding or disk page changes |
| Pool.FlushAllWrites | src/buffer/buffer_pool_manager_instance.cpp:190-194 | after flush-all the disk has every resident page's data and none of their frames is dirty; absent pages on disk, frames, page table, free list and replacer are as before |
| Pool.DeleteSpec | src/buffer/buffer_pool_manager_instance.cpp:196-220 | Delete refuses exactly a pinned page; an unpinned one leaves page table and replacer, its frame is zeroed and joins the end of the free list, nothing is written and no other page changes |
| Pool.WriteInv | src/buffer/buffer_pool_manager_instance.cpp:145-150 | a client's write into a page keeps the accounting invariant |
| Pool.DeleteInv | src/buffer/buffer_pool_manager_instance.cpp:196-220 | Delete keeps the accounting invariant |
| Pool.StartInv | src/buffer/buffer_pool_manager_instance.cpp:22-43 | a new pool satisfies the accounting invariant |
| Pool.FrameSpec | src/buffer/buffer_pool_manager_instance.cpp:54-64 | a frame can be had exactly when some frame is not pinned |
| Pool.NewSteps | src/buffer/buffer_pool_manager_instance.cpp:52-106 | New is: take a frame, allocate the id, recycle the frame, install the page |
| Pool.FetchSteps | src/buffer/buffer_pool_manager_instance.cpp:117-143 | Fetch of an absent page is: take a frame, recycle it, read the page, install it |
| BufferPool.BufferPoolManager.constructor | src/buffer/buffer_pool_manager_instance.cpp:22-43 | every frame starts on the free list, in order; nothing is mapped or tracked |
| BufferPool.BufferPoolManager.NewPage | src/buffer/buffer_pool_manager_instance.cpp:52-106 | the object's state and answer are `Pool.New` of the old state; the invariant is kept |
| BufferPool.BufferPoolManager.FetchPage | src/buffer/buffer_pool_manager_instance.cpp:108-151 | the object's state and answer are `Pool.Fetch` of the old state, whose pins, access and frame over whole runs are `PoolPolicy.RunFollowsLedger`; the invariant is kept |
| BufferPool.BufferPoolManager.UnpinPage | src/buffer/buffer_pool_manager_instance.cpp:153-174 | the object's state and answer are `Pool.Unpin` of the old state; the invariant is kept |
| BufferPool.BufferPoolManager.FlushPage | src/buffer/buffer_pool_manager_instance.cpp:176-188 | the object's state and answer are `Pool.Flush` of the old state, characterized by `Pool.FlushSpec`; the invariant is kept |
| BufferPool.BufferPoolManager.FlushAllPages | src/buffer/buffer_pool_manager_instance.cpp:190-194 | the loop over the frames flushes every frame's page, as `Pool.FlushFrom` from frame 0, characterized by `Pool.FlushAllWrites` |
| BufferPool.BufferPoolManager.DeletePage | src/buffer/buffer_pool_manager_instance.cpp:196-220 | the object's state and answer are `Pool.Delete` of the old state, characterized by `Pool.DeleteSpec`; the invariant is kept |
| BufferPool.BufferPoolManager.TakeFrame | src/buffer/buffer_pool_manager_instance.cpp:54-64 | free list first, else the replacer's victim; none exactly when neither has one |
| BufferPool.BufferPoolManager.Recycle | src/buffer/buffer_pool_manager_instance.cpp:69-85 | a dirty frame is written back under its old id, its page unmapped, its memory zeroed |
| BufferPool.BufferPoolManager.Install | src/buffer/buffer_pool_manager_instance.cpp:89-93 | the page is mapped to the frame, pinned once, accessed and not evictable |
| BufferPool.BufferPoolManager.WriteToPage | src/buffer/buffer_pool_manager_instance.cpp:145-150 | a client's write changes the frame's data only |
| PoolClient.Perform | src/buffer/buffer_pool_manager_instance.cpp:52-220 | one call on the object, whichever it is, does to its state and answers what `PoolRuns.Step` says |
| PoolClient.RunAll | src/buffer/buffer_pool_manager_instance.cpp:52-220 | a whole list of calls on one object: its answers are the run's, each one the store allows, and every live page reads as last written |
| Directory.EmptyHolds | src/container/hash/extendible_hash_table.cpp:27-33 | a new table satisfies the directory invariant and represents the empty map |
| Directory.DoublePreserves | src/container/hash/extendible_hash_table.cpp:161-170 | doubling the directory keeps the invariant and changes no binding |
| Directory.SplitPreserves | src/container/hash/extendible_hash_table.cpp:111-146 | splitting a bucket keeps the invariant (shared slots, hash bits, distinct keys, capacity) and changes no binding |
| Directory.MoveStep | src/container/hash/extendible_hash_table.cpp:138-145 | moving one item: it leaves the old list and fits into the new one exactly when its next hash bit is 1 |
| Directory.PutRefines | src/container/hash/extendible_hash_table.cpp:156-160 | a put its bucket accepts adds or overwrites exactly that binding |
| Directory.RemoveRefines | src/container/hash/extendible_hash_table.cpp:97-108 | a removal removes exactly that binding and is reported iff the key was bound |
| Directory.InsertTurn | src/container/hash/extendible_hash_table.cpp:152-172 | one turn of the insertion loop either puts the pair or meets a full bucket that is shallower than the spread depth |
| Directory.SplitTurn | src/container/hash/extendible_hash_table.cpp:161-172 | after the split the map is the same, there is one more bucket, and the key's bucket is one level deeper: the loop's measure |
| Directory.FullBucketIsShallow | src/container/hash/extendible_hash_table.cpp:152-173 | a full bucket refusing a key lies above any depth at which no bucket_size + 1 keys agree, so the loop ends |
| Directory.HeldKeysAreSpread | src/container/hash/extendible_hash_table.cpp:152-173 | conversely, a directory of depth at most D can only hold keys of which no bucket_size + 1 agree on D bits: the termination condition is necessary |
| Directory.TakesExactly | src/container/hash/extendible_hash_table.cpp:152-160 | the key's bucket takes the pair exactly when the key is bound or at most bucket_size keys of the new map share its low bits at the bucket's depth |
| Directory.DescendStep | src/container/hash/extendible_hash_table.cpp:161-172 | one more split on a key's path: hash values that leave the path at a level keep that level's bucket, all others keep theirs, one bucket is added, the directory doubles only if the path needs it |
| Directory.SplittingPut | src/container/hash/extendible_hash_table.cpp:152-173 | once the pair is taken, the depth reached is the least at which it could be |
| Directory.BucketOwnsSlots | src/container/hash/extendible_hash_table.cpp:123-130 | a bucket of local depth l is named by exactly 2^(global - l) slots |
| Directory.SharesFillDirectory | src/container/hash/extendible_hash_table.cpp:111-173 | the buckets' shares add up to 2^global |
| ExtendibleHash.Bucket.Find | src/container/hash/extendible_hash_table.cpp:185-196 | the first matching pair's value, none iff the key is absent |
| ExtendibleHash.Bucket.Remove | src/container/hash/extendible_hash_table.cpp:199-213 | the key's pair leaves the list, the rest keeps its order |
| ExtendibleHash.Bucket.Insert | src/container/hash/extendible_hash_table.cpp:216-233 | an existing key is overwritten even when the bucket is full; a new key is refused exactly when it is |
| ExtendibleHash.ExtendibleHashTable.constructor | src/container/hash/extendible_hash_table.cpp:27-33 | one empty bucket of depth 0, one slot, the empty map |
| ExtendibleHash.ExtendibleHashTable.IndexOf | src/container/hash/extendible_hash_table.cpp:40-45 | the slot that agrees with the key's hash on the global depth's bits |
| ExtendibleHash.ExtendibleHashTable.Find | src/container/hash/extendible_hash_table.cpp:81-94 | the map's binding of the key, none iff unbound |
| ExtendibleHash.ExtendibleHashTable.Remove | src/container/hash/extendible_hash_table.cpp:97-108 | the represented map loses exactly the key; the answer tells whether it was bound; no slot, depth or number of buckets changes |
| ExtendibleHash.ExtendibleHashTable.Insert | src/container/hash/extendible_hash_table.cpp:149-175 | for keys spread at some depth the loop ends and the represented map gains exactly the binding. A bound key splits nothing; a new key's bucket ends at the least depth, from the old one on, at which at most bucket_size keys of the new map share the key's low bits. The number of buckets grows by exactly that gain, the global depth to the larger of the two, and every other bucket keeps its slots, depth and items |
| ExtendibleHash.ExtendibleHashTable.RedistributeBucket | src/container/hash/extendible_hash_table.cpp:111-146 | the split of the directory, one more bucket counted, no binding changed |
| ExtendibleHash.ExtendibleHashTable.MoveItems | src/container/hash/extendible_hash_table.cpp:138-145 | every item ends in the bucket its hash names; the insertion whose result is ignored always succeeds |
| ExtendibleHash.ExtendibleHashTable.RepointSlots | src/container/hash/extendible_hash_table.cpp:123-130 | exactly the bucket's slots whose next bit is 1 are repointed |
| ExtendibleHash.ExtendibleHashTable.DoubleDirectory | src/container/hash/extendible_hash_table.cpp:161-170 | every slot is copied to the slot differing in the new top bit |
| PageHash.PageIdsSpread | src/container/hash/extendible_hash_table.cpp:39-45 | at most four 32-bit ids share their low 30 hash bits, so the page table's insertion always ends with a directory of at most 30 bits and the shift stays within an int |
| LruK.RunRefinesHistory | src/buffer/lru_k_replacer.cpp:47-167 | in every run of accesses, evictability changes, removals and evictions the replacer answers as the access history prescribes; records, lists, order and both sizes are those of the history; it speaks of the code on runs that are `LruK.NeverStuck`, since the eviction inside RecordAccess is not a step here |
| LruK.VictimSim | src/buffer/lru_k_replacer.cpp:47-84 | the victim is the evictable frame with fewer than k accesses and earliest first access, else the evictable frame with the oldest last access; none exactly when nothing is evictable, so the final return is never reached |
| LruK.StepSim | src/buffer/lru_k_replacer.cpp:47-167 | one operation keeps the correspondence between replacer and history |
| LruK.StartSim | src/buffer/lru_k_replacer.cpp:18-45 | a new replacer corresponds to the empty history |
| LruK.LastKSuffix | src/buffer/lru_k_replacer.cpp:99-103 | the kept time stamps are the last k access times in order |
| LruK.InRangeNeverStuck | src/buffer/lru_k_replacer.cpp:105-112 | with frame ids below the capacity the eviction inside RecordAccess is never reached in any run |
| LruK.StuckExactly | src/buffer/lru_k_replacer.cpp:89-116 | an id can reach it in some run exactly when it is outside the pool yet not above the capacity: the bound check admits the capacity itself |
| LruK.DocumentedExactlyForK1 | src/include/buffer/lru_k_replacer.h:27-38 | the coded choice is the documented one (largest backward k-distance, classical LRU among frames with fewer than k accesses) in every run exactly when k is 1 |
| Replacer.RemoveFromList | src/buffer/lru_k_replacer.cpp:175-183 | the node leaves its list and the rest stays well linked in order |
| Replacer.InsertToListHead | src/buffer/lru_k_replacer.cpp:184-191 | the node becomes the first of the list and the rest follows in order |
| Replacer.FindFromTail | src/buffer/lru_k_replacer.cpp:55-68 | the walk from the tail stops at the last evictable node, or at the head iff there is none |
| Replacer.LRUKReplacer.constructor | src/buffer/lru_k_replacer.cpp:18-45 | two empty well-formed lists, nothing tracked |
| Replacer.LRUKReplacer.Evict | src/buffer/lru_k_replacer.cpp:47-84 | the linked structure after eviction is that of the model without the chosen frame, and the answer is the model's choice |
| Replacer.LRUKReplacer.RecordAccess | src/buffer/lru_k_replacer.cpp:86-130 | the linked structure after an access is that of `LruK.Accessed`; an id above the capacity is refused |
| Replacer.LRUKReplacer.SetEvictable | src/buffer/lru_k_replacer.cpp:132-149 | the linked structure is that of `LruK.Marked`; an untracked frame is ignored |
| Replacer.LRUKReplacer.Remove | src/buffer/lru_k_replacer.cpp:151-167 | an evictable frame is dropped, an untracked one ignored, any other refused without change |
| Expressions.RewriteMeansTheSame | src/optimizer/merge_filter_nlj.cpp:18-37 | the rewritten expression on (left, right) has the value of the original on the joined tuple |
| Expressions.RewriteSucceedsExactly | src/optimizer/merge_filter_nlj.cpp:24-35 | the rewrite is refused exactly when some column is not a column of the joined tuple |
| Expressions.RewrittenFitsJoin | src/optimizer/merge_filter_nlj.cpp:28-33 | the rewritten columns are columns of the side they name |
| FilterJoin.MergeInner | src/optimizer/merge_filter_nlj.cpp:63-70 | filtering a constant-true inner join makes, in order, the rows of the merged join |
| FilterJoin.MergeLeftExactly | src/optimizer/merge_filter_nlj.cpp:63-70 | for a left join the merge keeps the rows if and only if every left row passes the filter with some partner, or padded when the right side is empty |
| FilterJoin.MergeRightExactly | src/optimizer/merge_filter_nlj.cpp:63-70 | for a right join: if and only if every right row passes with some partner, or padded when the left side is empty |
| FilterJoin.MergeExactly | src/optimizer/merge_filter_nlj.cpp:63-70 | for every join type: inner always, left and right as above, outer if and only if both hold |
| FilterJoin.MergeLeftChangesRows | src/optimizer/merge_filter_nlj.cpp:63-70 | a concrete left join whose merge adds a row |
| FilterJoin.MergeRightChangesRows | src/optimizer/merge_filter_nlj.cpp:63-70 | a concrete right join whose merge adds a row |
| ScanFilter.FilterIdleExactly | src/optimizer/nlj_as_index_join.cpp:61-83 | an equality join has the same rows with and without a filter on its right side if and only if the filter passes every right row with a partner, or, for right and outer joins, every right row |
| Relations.SortIsListing | src/optimizer/order_by_index_scan.cpp:58-70 | sorting by the key column makes exactly the rows in index order |
| Relations.ListingUnique | src/optimizer/order_by_index_scan.cpp:58-70 | two listings ordered by key and position of the same positions are the same |
| Relations.ProbeIsLoop | src/optimizer/nlj_as_index_join.cpp:61-83 | probing the index finds the loop join's matches in the loop join's order, for either operand order |
| Relations.HashPicksAreLoopPicks | src/optimizer/nlj_as_hash_join.cpp:46-55 | a hash table on the right key finds the loop join's matches in the loop join's order, for either operand order |
| Plans.RowsMatchSchema | src/include/execution/plans/abstract_plan.h:62-116 | every row of a well-formed plan has one value per column of its schema |
| Operators.LogicIs | src/include/execution/expressions/logic_expression.h:80-103 | AND is the lesser and OR the greater of false, unknown, true |
| Operators.CompareIs | src/include/execution/expressions/comparison_expression.h:62-79 | integers compare by their order, false before true, anything with null is null, and the six comparisons follow from two |
| Operators.ArithIs | src/include/execution/expressions/arithmetic_expression.h:78-90 | sum and difference of integers wrapped around to 32 bits; null with null |
| Operators.FilterKeeps | src/execution/filter_executor.cpp:16-32 | a filter keeps exactly the rows on which the predicate is true, each as often as it was there, in order |
| Operators.MatchesExactly | src/include/execution/plans/nested_loop_join_plan.h:27-43 | a left row is paired with exactly the right rows on which the predicate is true, in order |
| Operators.JoinHas | src/include/execution/plans/nested_loop_join_plan.h:27-43 | a row is in a join exactly when it is a pair, or an unpaired left row of a left or full join, or an unpaired right row of a right or full join, padded with nulls |
| Operators.JoinLeftSnoc | src/include/execution/plans/nested_loop_join_plan.h:27-43 | a further left row adds its pairs in order behind the others', or itself padded, each once |
| Operators.BeforeExactly | src/include/execution/plans/sort_plan.h:27-57 | rows are compared by the first key that differs: null first, then by value, reversed when descending |
| Operators.SortOrders | src/include/execution/plans/sort_plan.h:27-57 | a sort lists every row once, by its keys, and rows with equal keys in their old order |
| Operators.CountStarIs | src/include/execution/executors/aggregation_executor.h:45-66 | COUNT(*) is the number of rows in 32 bits |
| Operators.CountIs | src/include/execution/plans/aggregation_plan.h:28-52 | COUNT is the number of values that are not null, null when there is none |
| Operators.SumIs | src/include/execution/plans/aggregation_plan.h:28-52 | SUM is the 32-bit sum of the values that are not null, null when there is none |
| Operators.ExtremeIs | src/include/execution/plans/aggregation_plan.h:28-52 | MIN and MAX are a value that occurs and that none is below or above, null when all values are |
| Operators.GroupKeeps | src/include/execution/executors/aggregation_executor.h:91-96 | a group is the rows with its key, in order |
| Operators.KeysExactly | src/include/execution/executors/aggregation_executor.h:91-96 | there is one group for each key that occurs, listed by first occurrence |
| Optimizer.PipelineKeepsRows | src/optimizer/optimizer.cpp:8-21 | every well-formed plan with no filtered scan and only inner joins where a constant-true join sits under a filter is optimized into a plan with the same rows in the same order and the same columns; it throws exactly when a filter is left above a join on a constant that is no boolean; starter and custom pipelines agree |
| Optimizer.IsIdentical | src/optimizer/merge_projection.cpp:36-46 | the flag loop answers true exactly when the i-th expression is column i of tuple 0 for all i |
| Optimizer.MergeProjection | src/optimizer/merge_projection.cpp:12-55 | the result keeps the plan's column names and types |
| Optimizer.MergeProjectionKeeps | src/optimizer/merge_projection.cpp:12-55 | the rule keeps rows, schema and well-formedness at any depth |
| Optimizer.MergeProjectionComplete | src/optimizer/merge_projection.cpp:12-55 | no removable projection is left anywhere |
| Optimizer.RemovableExactly | src/optimizer/merge_projection.cpp:19-52 | a well-formed projection is removed exactly when it keeps its child's column types and leaves every possible row unchanged |
| Optimizer.MergedIsPeeled | src/optimizer/merge_projection.cpp:47-51 | the result's operator is the one below the removable projections |
| Optimizer.MergeProjectionConditions | src/optimizer/optimizer.cpp:12-13 | the rule hands the next one a plan that meets its conditions |
| Optimizer.RewriteInRange | src/optimizer/merge_filter_nlj.cpp:30-35 | on a well-formed filter over a join the range exception never fires |
| Optimizer.MergeFilterSucceedsExactly | src/optimizer/merge_filter_nlj.cpp:39-75 | on a well-formed plan the rule throws exactly when somewhere a filter sits above a join whose constant predicate is an integer or null; string constants, some of which cast to a boolean, are outside the values here |
| Optimizer.JoinOnNullThrows | src/optimizer/merge_filter_nlj.cpp:39-44 | so it throws on every filtered join ON NULL, for every join type and filter |
| Optimizer.MergeFilterKeeps | src/optimizer/merge_filter_nlj.cpp:46-75 | when the rule does not throw it keeps rows, schema and well-formedness at any depth |
| Optimizer.MergeFilterComplete | src/optimizer/merge_filter_nlj.cpp:53-72 | no filter is left right above a constant-true join |
| Optimizer.MergeFilterUnfiltered | src/optimizer/optimizer.cpp:13-14 | the rule introduces no filtered scan |
| Optimizer.MergeNodeExactly | src/optimizer/merge_filter_nlj.cpp:63-70 | on a plan with a constant-true join of any type under a filter the rewritten node has the same rows if and only if the merge is safe for that type |
| Optimizer.FirstMatchFound | src/optimizer/nlj_as_index_join.cpp:24-33 | the search returns an index on exactly the asked columns, and nothing iff there is none |
| Optimizer.MatchedIndexLists | src/optimizer/nlj_as_index_join.cpp:24-33 | a matched index belongs to the scanned table and lists it by the join column |
| Optimizer.IndexJoinSameRows | src/optimizer/nlj_as_index_join.cpp:61-83 | index join and loop join on that column make the same rows for every join type and both operand orders |
| Optimizer.IndexJoinKeeps | src/optimizer/nlj_as_index_join.cpp:35-91 | the rule keeps rows, schema, well-formedness and the absence of filtered scans at any depth |
| Optimizer.IndexJoinComplete | src/optimizer/nlj_as_index_join.cpp:42-88 | no equality join with an indexed scan on its right is left |
| Optimizer.JoinKeysExactly | src/optimizer/nlj_as_index_join.cpp:42-60 | a predicate is recognised exactly when it equates a column of one side with one of the other, in either operand order, and the keys are those columns |
| Optimizer.IndexJoinNodeNames | src/optimizer/nlj_as_index_join.cpp:61-83 | the rewritten join names an index of the scanned table on exactly the join column, by its id and its name, and reads that table with its schema under the old join type |
| Fixpoint.NothingLeft | src/optimizer/optimizer.cpp:8-21 | no later rule makes work for an earlier one: the optimized plan has no node, at any depth, that any of the rules would rewrite or refuse |
| Fixpoint.OptimizeTwice | src/optimizer/optimizer_custom_rules.cpp:10-19 | optimizing a second time, in either mode, changes nothing |
| Optimizer.FilteredJoinExactly | src/optimizer/nlj_as_index_join.cpp:61-83 | the rule ignores a scan's filter: rows are kept if and only if the filter passes the table rows that matter to the join type |
| Optimizer.FilteredJoinChangesRows | src/optimizer/nlj_as_index_join.cpp:61-83 | a concrete catalog and join with a filtered scan whose rows the rule changes |
| Optimizer.HashJoinKeeps | src/optimizer/nlj_as_hash_join.cpp:20-63 | the rule keeps rows, schema and well-formedness at any depth, for every join type and both operand orders |
| Optimizer.HashJoinComplete | src/optimizer/nlj_as_hash_join.cpp:27-60 | no loop join on a column equality is left |
| Optimizer.NamedIndexLists | src/optimizer/order_by_index_scan.cpp:58-70 | an index found by column name lists its table by that very column |
| Optimizer.OrderByKeeps | src/optimizer/order_by_index_scan.cpp:24-75 | the rule keeps the exact row order, schema, well-formedness and the absence of filtered scans at any depth |
| Optimizer.OrderByComplete | src/optimizer/order_by_index_scan.cpp:31-72 | no ascending one-column sort of a scan with a matching index is left |
| Optimizer.FilteredScanExactly | src/optimizer/order_by_index_scan.cpp:58-70 | the rule ignores a scan's filter: rows are kept if and only if the filter passes the whole table |
| Optimizer.FilteredScanChangesRows | src/optimizer/order_by_index_scan.cpp:58-70 | a concrete catalog and sorted filtered scan whose rows the rule changes |
| Binding.HasDuplicate | src/planner/plan_expression.cpp:45-53 | the flag loop answers true exactly when the name occurs twice in the schema |
| Binding.TryGetColIdx | src/include/catalog/schema.h:75-82 | the first column of that name, none iff no column has it |
| Binding.PlannedMeans | src/planner/plan_expression.cpp:136-166 | a planned expression means on a row what the bound one means with columns read by name |
| Binding.PlannedMeansJoin | src/planner/plan_expression.cpp:58-93 | a planned join condition means on (left, right) what the bound one means by name on the joined row |
| Aggregates.PlansExactly | src/planner/plan_expression.cpp:136-166 | an expression is planned exactly when it is well-typed over the schema and a column is left for each of its calls; the planned type is the typed one |
| Aggregates.PseudoPlansTheSame | src/planner/plan_expression.cpp:104-112 | planning the tree with placeholders over the aggregation is planning the original |
| Aggregates.CollectsAllPseudo | src/planner/plan_expression.cpp:104-112 | what is collected from a statement planned before are placeholders, as many as it had calls |
| Aggregates.LowersAgainExactly | src/planner/plan_aggregation.cpp:50-164 | a lowered statement can be lowered a second time if and only if it has no aggregate call |
| Aggregates.ConsumesItsCalls | src/planner/plan_expression.cpp:139-144 | planning an expression advances the cursor by the number of calls collected from it |
| Aggregates.CallsTakeSlotsInOrder | src/planner/plan_expression.cpp:102-144 | collection order is consumption order: the k-th call of an expression is replaced by column next + k |
| Aggregates.ListConsumesItsCalls | src/planner/plan_aggregation.cpp:141-158 | over HAVING and the select list each call is consumed exactly once and none is left over |
| Aggregates.NoSlotsNoCalls | src/planner/plan_aggregation.cpp:35-42 | without columns to hand out no aggregate call can be planned: not in GROUP BY, not inside another call |
| Lowering.CallAgrees | src/planner/plan_aggregation.cpp:27-45 | the planned call has the call's own value on every group |
| Lowering.LoweredMeans | src/planner/plan_aggregation.cpp:104-158 | on every group a lowered expression, evaluated on the aggregation's row, has the value of the original on the group |
| Lowering.LowerAggMeans | src/planner/plan_aggregation.cpp:50-164 | the lowered plan produces one row of select-list values for each group HAVING keeps, as the query's own expressions say |
| Lowering.LowersExactly | src/planner/plan_aggregation.cpp:50-164 | a query is lowered exactly when it is well-typed: group-bys and aggregate arguments over the input, HAVING and select list over groups and aggregates |
| Lowering.OverPlansExactly | src/planner/plan_aggregation.cpp:141-158 | phase two never runs out of aggregate columns |
| Lowering.ResolvesToGroup | src/planner/plan_aggregation.cpp:88-92 | a qualified name in the aggregation's schema is the name of a group-by column, never of an aggregate |
| Lowering.OptimizedAggregateMeans | src/optimizer/optimizer.cpp:8-21 | the plan of an aggregate query, optimized, still produces the query's rows; optimizing throws exactly on the constant cast |
| PlannerContext.Context.constructor | src/include/planner/planner.h:43-74 | no aggregates allowed, nothing collected, cursor at 0 |
| PlannerContext.Context.AddAggCallToContext | src/planner/plan_expression.cpp:102-134 | the expression's calls are appended left to right and replaced by numbered placeholders; fails exactly on an unsupported expression or where aggregates are not allowed |
| PlannerContext.Context.PlanExpression | src/planner/plan_expression.cpp:136-166 | result, error and cursor are those of `Binding.PlanExpr` |
| PlannerContext.Context.PlanAll | src/planner/plan_aggregation.cpp:154-158 | the loop over a list plans it left to right, as `Aggregates.PlanList` |
| PlannerContext.Context.PlanAggCall | src/planner/plan_aggregation.cpp:27-45 | the result is `Aggregates.PlanAggCall`; the context is given back unchanged |
| PlannerContext.Context.CollectCalls | src/planner/plan_aggregation.cpp:94-102 | HAVING's calls then the select list's are collected, and placeholders numbered throughout are left in their stead |
| PlannerContext.Context.PlanAggregations | src/planner/plan_aggregation.cpp:104-132 | each collected call is planned and bound to the column behind the group-bys at its own position |
| PlannerContext.Context.PlanSelectOver | src/planner/plan_aggregation.cpp:141-164 | filter and projection over the aggregation; the cursor ends at the number of calls |
| PlannerContext.Context.PlanSelectAgg | src/planner/plan_aggregation.cpp:50-164 | the result is `Aggregates.LowerAgg` of the statement as it was; the context is given back unchanged, and the statement object is left with placeholders for its calls |
| FromClause.SelectListNames | src/binder/bind_select.cpp:67-89 | the naming loop gives each item its name; only generated names advance the counter |
| FromClause.StarItemNames | src/binder/bind_select.cpp:71-76 | a star's select list is named by its own column names |
| Statements.ItemNamesDiffer | src/binder/bind_select.cpp:67-89 | no two select items without a name of their own get the same name |
| Statements.TableColumns | src/planner/plan_table_ref.cpp:34-75 | the planned columns of a table are the catalog's, with their types, under the alias if there is one and under the table's name if not, and so the star names them |
| FromClause.StarNamesAgree | src/binder/bind_select.cpp:345-399 | for every FROM tree whose inner statements are planned the expanded star names are the planned schema's column names, position by position |
| FromClause.StarPlansExactly | src/planner/plan_expression.cpp:44-56 | over a planned FROM tree the star can be planned exactly when the tree's full column names are distinct; when the inner statements can be planned is `QueryTyping.QueryPlansExactly` |
| FromClause.StarIsRemoved | src/optimizer/merge_projection.cpp:19-52 | the star's projection is the identity, keeps names and types, and the merge-projection rule removes it without a trace |
| FromClause.FromPlansExactly | src/planner/plan_table_ref.cpp:34-139 | a tree over planned inner statements is planned exactly when its tables, column counts and conditions make sense, and the plan has the tree's columns |
| FromClause.ConditionPlansExactly | src/planner/plan_table_ref.cpp:131-139 | a join condition is planned exactly when it is well-typed, each column on exactly one side |
| FromClause.FromReady | src/planner/plan_table_ref.cpp:34-139 | a planned tree is well-formed and has no filtered scan |
| FromClause.FromMeans | src/planner/plan_table_ref.cpp:34-139 | a planned tree produces the rows the tree describes: products, joins with conditions read by name, inner statements |
| FromClause.OptimizedStarMeans | src/optimizer/optimizer.cpp:8-21 | the optimized plan of SELECT * FROM ... WHERE ... has the star's column names and produces the tree's rows that satisfy the condition, all read by name; optimizing throws exactly on the constant cast |
| Selects.SelectedMeans | src/planner/plan_select.cpp:61-87 | select list or aggregation: one row per input row or per kept group, columns by name, output columns named as the statement names them; which of the two is `Statements.GroupedMeans` |
| Selects.DistinctMeans | src/planner/plan_select.cpp:89-102 | grouping by every column yields the different rows by first appearance |
| Selects.SortMeans | src/planner/plan_select.cpp:104-113 | the sort node lists the rows in the stable order of the ORDER BY values, read by output column name |
| Selects.LimitMeans | src/planner/plan_select.cpp:115-153 | the first rows up to the count, a negative or null count read as an unsigned 64-bit number; what that keeps is `Statements.LimitIs` |
| Selects.BodyMeans | src/planner/plan_select.cpp:55-155 | WHERE, list or aggregation, DISTINCT, ORDER BY and LIMIT stacked over any planned input produce the statement's rows over the input's rows; `Statements` ties grouping, star, names and LIMIT to the statement |
| Selects.SpentBodyFails | src/planner/plan_aggregation.cpp:94-132 | a statement that had aggregate calls cannot be planned a second time, whatever it reads from |
| Statements.GroupedMeans | src/planner/plan_select.cpp:60-87 | a statement with GROUP BY, HAVING or an aggregate call anywhere in its select list produces one row per group that HAVING keeps; any other produces exactly one row per input row |
| Statements.PlainBodyIs | src/planner/plan_select.cpp:54-87 | a statement without DISTINCT, ORDER BY and LIMIT: the rows that satisfy WHERE, grouped exactly under that condition or else listed; a star stands for all columns in order |
| Statements.LimitIs | src/planner/plan_select.cpp:115-153 | a count of n keeps the first n rows, or all if there are fewer; a negative or null count keeps all of them, for any number of rows below 2^63 |
| Statements.LimitPlansExactly | src/planner/plan_select.cpp:115-153 | LIMIT and OFFSET are accepted exactly when there is no offset and the count is an integer or null constant |
| Statements.DistinctIs | src/planner/plan_select.cpp:89-102 | DISTINCT keeps each row that occurs, once |
| Statements.NumberedAt | src/planner/plan_select.cpp:76-83 | an output column with a name keeps it, the others are numbered one after the other from the planner's counter |
| Statements.OutputsDiffer | src/planner/plan_select.cpp:76-83 | no two unnamed output columns get the same name |
| Statements.StarIsPlanned | src/planner/plan_select.cpp:54-87 | the statement planner plans SELECT * FROM ... WHERE ... exactly as `FromClause.PlanSelectStar`, errors included |
| Statements.StarBodyIs | src/planner/plan_select.cpp:54-87 | SELECT * FROM ...: every column of the FROM clause in its place under its name, and every row, value for value |
| Statements.StarQueryIsPlanned | src/planner/plan_select.cpp:35-156 | a query that is one star is accepted exactly when that star can be planned; its plan is the star's and its column names are the FROM clause's |
| Queries.PlansAgainExactly | src/planner/plan_table_ref.cpp:122-129 | a planned query can be planned a second time if and only if it collects no aggregate call at any depth |
| Queries.PlansLikeScratch | src/planner/plan_select.cpp:35-156 | the planner, which changes the bound query as it goes and plans a common table expression anew at each reference, accepts a query if and only if all its statements can be planned from scratch and none with aggregate calls is referenced twice; it then makes the same plan |
| Queries.StarColumnsAgree | src/binder/bind_select.cpp:345-399 | for every FROM tree, however deep, the binder's columns, with a common table expression renamed by its reference, are those of the planned tree |
| QueryTyping.BodyTypes | src/planner/plan_select.cpp:55-155 | a statement over a planned input is planned exactly when WHERE, select list or aggregation, ORDER BY and LIMIT are well-typed, and its plan has the columns of its type |
| QueryTyping.QueryPlansExactly | src/planner/plan_select.cpp:35-156 | a query, however its statements nest, is accepted exactly when it is well-typed at every level and no common table expression with aggregate calls is referenced twice; its plan has the columns of its type |
| QueryTyping.DoubledCteRefused | src/planner/plan_table_ref.cpp:122-129 | WITH c AS (SELECT count(*) AS n FROM t) SELECT * FROM c AS a, c AS b is refused although it is well-typed and each statement can be planned from scratch |
| QueryMeaning.ScratchFromMeans | src/planner/plan_table_ref.cpp:34-139 | a FROM tree with nested statements and references: each inner plan has the inner statement's rows, one name per column, none of them empty |
| QueryMeaning.QueryMeans | src/planner/plan_select.cpp:35-156 | whenever the planner accepts a query, however its subqueries and common table expressions nest, the plan is well-formed and produces exactly the rows the query describes by name |
| QueryMeaning.QueryPlannable | src/planner/plan_select.cpp:35-156 | an accepted query without an outer join on the constant true, at any depth, is planned into a plan the merge rule is safe on |
| QueryMeaning.OptimizedQueryMeans | src/optimizer/optimizer.cpp:8-21 | end to end: an accepted nested query's optimized plan produces the query's rows in order under the planned columns; optimizing throws exactly on the constant cast |
| Executors.EvaluateAll | src/execution/projection_executor.cpp:25-30 | the loop evaluates every expression in order |
| Executors.Executor.constructor | src/execution/filter_executor.cpp:7-9 | an executor mirrors its plan over a child that mirrors the plan's child |
| Executors.Executor.Init | src/execution/values_executor.cpp:8-8 | the whole stack is rewound: all of the plan's rows are to come |
| Executors.Executor.Next | src/execution/filter_executor.cpp:16-32 | hands out the first of the rows to come, and reports the end exactly when there is none |
| Executors.Executor.NextValues | src/execution/values_executor.cpp:10-27 | the next value list, evaluated; the cursor advances by one |
| Executors.Executor.NextFiltered | src/execution/filter_executor.cpp:16-32 | pulls until a row passes; ends because every pull uses up a row at the bottom of the stack |
| Executors.Executor.NextProjected | src/execution/projection_executor.cpp:15-35 | the child's next row, mapped |
| Executors.Executor.Drain | src/include/execution/execution_engine.h:50-74 | from any state, initialising and polling until the end yields exactly the plan's rows |
| Executors.CreateExecutor | src/execution/executor_factory.cpp:123-141 | the stack of executors mirrors the plan |
| Rollback.AbortOutcome | src/concurrency/transaction_manager.cpp:61-78 | what undoing the write set backwards leaves, for every run: the slots of Begin, a mark gone if the run hit it, each with the tuple before its first update that is logged and finds room to be taken back; it stops at an assertion exactly when a mark was attempted beyond a page's slots |
| Rollback.AbortRestoresExactly | src/concurrency/transaction_manager.cpp:61-78 | for every run: Abort restores the heap held at Begin if and only if every mark is on an existing slot not already marked then, and every slot keeps its tuple |
| Rollback.TakenBackBytes | src/storage/page/table_page.cpp:159-159 | a logged update is taken back exactly when the page's free bytes before it, plus what its other tuples have shrunk by when its turn comes, make up for the slots the page gains afterwards |
| Rollback.TakenBackExactly | src/storage/page/table_page.cpp:159-159 | in a run that stops updating when the transaction fails, all logged updates are taken back if and only if each one's page had, just before it, 8 free bytes for every slot it gained afterwards |
| Rollback.AbortRestoresIffRoom | src/concurrency/transaction_manager.cpp:61-78 | for such a run that updates no tuple twice, Abort restores the heap if and only if that room was there and the marks were on existing slots not already marked |
| Rollback.RoomRestores | src/concurrency/transaction_manager.cpp:61-78 | with that room, however often tuples are updated, only marks can keep Abort from restoring the heap |
| Rollback.FullPageKeepsUpdate | src/storage/page/table_page.cpp:159-159 | a concrete run: on a page with 4 free bytes a tuple shrinks from 60 to 30 bytes, 26 bytes are inserted, and Abort leaves the tuple as updated |
| Rollback.RefusedYetRestored | src/concurrency/transaction_manager.cpp:61-78 | a concrete run that updates a tuple twice: one undo step is refused for want of room, and the heap is restored all the same |
| Rollback.RunOk | src/storage/page/table_page.cpp:38-72 | no run overfills a page or puts a tuple beyond its page's slots |
| Rollback.InsertIs | src/storage/page/table_page.cpp:38-90 | an insert succeeds exactly when the tuple with its slot fits into the page's free bytes, takes the page's least empty slot, logs it, and uses up the tuple's bytes and 8 more if there was no empty slot |
| Rollback.SlotIs | src/storage/page/table_page.cpp:92-206 | marking and updating touch one slot: a live tuple is marked, or replaced exactly when the page has room for the difference; refused ones change nothing |
| Rollback.OutcomeFits | src/storage/page/table_page.cpp:159-159 | nor does undoing overfill a page |
| Rollback.LateUpdateStays | src/storage/table/table_heap.cpp:127-130 | a concrete run whose update after the failure survives Abort |
| Rollback.RefusedMarkIsCleared | src/storage/table/table_heap.cpp:105-109 | a concrete run whose refused mark makes Abort clear another transaction's mark |
| Rollback.CommitOutcome | src/concurrency/transaction_manager.cpp:39-53 | for any heap and log Commit empties exactly the slots with a delete record; it stops at an assertion unless those are different slots that hold a tuple |
| Rollback.CommitRunOutcome | src/concurrency/transaction_manager.cpp:39-53 | after any run Commit stops unless the marks attempted are on different slots that hold a tuple in the end, and then empties exactly those |
| Rollback.CommitRemovesOwnMarksExactly | src/concurrency/transaction_manager.cpp:39-53 | Commit removes exactly what this transaction marked if and only if every mark it attempted met a live tuple |
| Rollback.CommitLosesOwnInsert | src/storage/table/table_heap.cpp:105-109 | a concrete run: a mark on an empty slot, then an insert that reuses it, which Commit removes |
| Rollback.DoubleMarkFailsCommit | src/storage/page/table_page.cpp:211-245 | a concrete run: two marks on one tuple stop Commit at the page's assertion |
| IndexRollback.AbortIndexOutcome | src/concurrency/transaction_manager.cpp:79-101 | what undoing the index write set backwards leaves at each key, for every run, in an index that removes entries |
| IndexRollback.AbortIndexRestoresExactly | src/concurrency/transaction_manager.cpp:79-101 | Abort restores the indexes if and only if at every key the first writes found what they expected |
| IndexRollback.SoundRunRestored | src/concurrency/transaction_manager.cpp:79-101 | a run whose inserts meet absent keys and whose deletes meet their own entries is undone completely |
| IndexRollback.AbortWithoutRemovalExactly | src/storage/index/b_plus_tree.cpp:338-338 | with the tree's removal empty, as it is, Abort restores the indexes if and only if every key the transaction touched was there at Begin |
| IndexRollback.InsertedEntryStays | src/storage/index/b_plus_tree.cpp:338-338 | a concrete log: one entry inserted under a new key is still there after Abort |
| Transactions.TableHeap.InsertTuple | src/storage/table/table_heap.cpp:40-92 | the tuple enters the page's first empty slot or a new one, the free-space pointer moves by its size and an insert is logged; too large a tuple or no page fails the transaction |
| Transactions.TableHeap.MarkDelete | src/storage/table/table_heap.cpp:94-111 | a live tuple is marked; the delete is logged even if the page refused it |
| Transactions.TableHeap.UpdateTuple | src/storage/table/table_heap.cpp:113-132 | a live tuple is replaced if the bytes fit, judged by the free-space pointer; the old one is logged unless the transaction has failed |
| Transactions.TransactionManager.Commit | src/concurrency/transaction_manager.cpp:39-59 | state COMMITTED and write set empty, deletes applied last to first as `Rollback.CommitAll`; false exactly when a page's assertion stops it |
| Transactions.TransactionManager.Abort | src/concurrency/transaction_manager.cpp:61-109 | state ABORTED, both logs replayed backwards and empty as `Rollback.UndoAll` and `IndexRollback.UndoAllKeeping`; false exactly when a page's assertion stops it |
| Transactions.TransactionManager.UndoTableWrites | src/concurrency/transaction_manager.cpp:64-78 | the loop undoes the table write set backwards as `Rollback.UndoAll`, refused updates included; undoing logs nothing, so it ends |
| Transactions.TransactionManager.UndoIndexWrites | src/concurrency/transaction_manager.cpp:79-101 | the loop undoes the index write set backwards on the tree whose removal is empty, as `IndexRollback.UndoAllKeeping` |

## Left out

- Concurrency inside an operation: latches are not modelled.
- BufferPool.BufferPoolManager.FlushAllPages: one uninterrupted loop on the object; other calls between its flushes are covered by `PoolRuns.FlushAllIsFrames` and the flush-of-one-frame step.
- BufferPool.BufferPoolManager.NewPage: requires the next page id to be below the largest 32-bit id; the wrap-around of the counter is not modelled.
- BufferPool.BufferPoolManager.FetchPage: requires an id that was handed out and that no freed frame remembers; outside of that `Pool.FetchMissInv` shows the invariant lost.
- Replacer.LRUKReplacer.RecordAccess: requires that the eviction loop is not reached; `LruK.StuckExactly` says when it would be.
- ExtendibleHash.ExtendibleHashTable.Insert: requires the keys to be spread at some depth, without which the loop does not end.
- PlannerContext.Context.AddAggCallToContext: returns the tree with placeholders; the statement object takes it over once all calls are collected, so a statement left half swapped by a failing collection is not modelled.
- FromClause.SelectListNames: the select list is taken as bound; binding expressions and resolving column names is not modelled.
- Time stamps and counters of the replacer are unbounded; the file offset of a page is not modelled as a 32-bit product.
- The B+ tree, its pages and its iterator: removal and iteration are empty in the source; an index is a map with unique keys here.
- IndexRollback.AbortIndexOutcome: speaks of an index whose removal removes, as the transaction manager expects; `IndexRollback.AbortWithoutRemovalExactly` speaks of the source's empty one.
- IndexRollback.AbortIndexRestoresExactly: likewise for an index whose removal removes.
- IndexRollback.SoundRunRestored: likewise for an index whose removal removes.
- Rollback.AbortRestoresIffRoom: requires that no tuple is updated twice; `Rollback.RefusedYetRestored` shows the condition is not necessary otherwise, `Rollback.RoomRestores` that it still suffices, and `Rollback.AbortRestoresExactly` covers every run.
- Optimizer.MergeFilterSucceedsExactly: string constants are not modelled; the source casts some of them to a boolean.
- Transactions.TableHeap.InsertTuple: requires the page search to end at a page with room, as it does in the source.
- Operators.SortOrders: takes sort keys whose values are of one kind, nulls aside, as the values of a typed expression are; likewise Operators.BeforeExactly and Operators.ExtremeIs.
- Operators.SumIs: takes 32-bit integers and nulls, the values an integer expression has.
- Lock manager, deadlock detection, log manager, recovery: the source has only stubs.
- The executors of scans, joins, sort, top-n, aggregation, limit and writes: stubs; their plan nodes have a denotational meaning only.
- Merge-filter-scan and eliminate-true-filter rules: not part of the pipeline. Sort-limit-as-top-n returns its plan unchanged.
- VARCHAR, DECIMAL and the other value types, and predicates that are integers: values are 32-bit integers, booleans and null.
- Folding of boolean operators in the binder, the parser and its node tags.
- Queries.PlansLikeScratch: a common table expression that refers to one of an enclosing statement is refused here; the source binds it in one scope and plans it in another.
- QueryMeaning.OptimizedQueryMeans: takes a plan in which no filter sits on a constant-true outer join; for those joins `Optimizer.MergeNodeExactly` has the exact condition.
- VALUES lists in FROM, and INSERT, DELETE and UPDATE statements: they add nodes the plan model already has.
- Byte offsets of tuples inside a page, page latches, and the page chain of a table heap.
- The catalog's name bookkeeping, schema printing, string utilities, the disk manager, shells and tools.
