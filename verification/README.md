# A verified model of the Bε-tree

This project models the in-memory Bε-tree of `tree.go`, `flush.go`, `node.go`, `iterator.go`
and `cursor.go`, together with the two join loops of `examples/mergejoin/main.go`, and proves
that this write-buffered, lazily flushed, lazily counted structure is an ordered map.

A write only appends a message (put, delete or upsert) to the root's buffer. A full buffer
sends its heaviest child's messages one level down, recursively, until a batch reaches a leaf,
where it is sorted, folded, and merged in place along one of four paths; nodes that outgrow
their bounds are split. Reads rebuild a key's value from whatever is still on its path.

## How it is built

There are two layers.

* **Values.** `Trees.Tree` is what a node and all below it hold at one moment. `Path` lists the
  buffered messages for a key in the order they were sent (deepest buffer first), `Base` is what
  the leaf holds, and `Lookup` folds one over the other: the logical map. `Flushing.Flush`,
  `Runs.PutStep` and their neighbours say what each operation does to the tree, the size counter
  and the pending-delete counter, and keep an account of the work done. `Live` is the logical
  map as a finite map. The theorems over all states and all runs are proved here.
* **Objects.** `Nodes.Node`, `BETrees.BETree` and `Cursors.Cursor` are classes with the source's
  fields, updated in place by the source's loops: binary searches, bucket partition, in-place
  compaction, the reverse merge on moving cursors, splits, splices of the child slices. Each node
  carries a ghost tree value and a ghost representation set. Every method is proved to do to the
  values exactly what the specification function says, so all the theorems hold of the objects;
  the public operations state their effect on `Model()`, the logical map, outright.

Files, bottom up: `Numbers`, `Seqs`, `Messages` (messages, ranges, folds, histories), `Leaves` (sorted
pages), `Trees` (shape, lookup), `Flushing`, `Ledgers` (conservation, work), `Contents` (the
logical map, the size law), `KeySets`, `Healing` (flushes and miscounts), `Runs` (operations and
runs), `Laws` (what every run satisfies), `Capacities`, `Bounds`, `Overflows`, `Frames`, `Witnesses` (capacities of nodes),
`Batches` (batch effects on a page), `Slices`, `Merging` (in-place merges),
`Resolving` (deduplication of a batch), `Nodes`, `Splits`, `LeafBatches`, `Iteration`, `Listing`,
`Collectors` (range queries), `Lookups`, `Snapshots`, `Buckets`, `BETree`, `Cursors`,
`MergeJoins`.

## Main results

* **Refinement.** For every sequence of operations from an empty tree the logical map and every
  answer are a plain map's, whatever flushes and splits happened (`Runs.RunRefines`;
  `Runs.RunAnswers` is its part about answers).
* **Histories.** In every reachable state each buffered delete, and each buffered put that was
  not counted, sits over a key that is live below it: `Trees.TreeHist`, kept by every operation
  in `Runs.NextRefines` (`Laws.RunHistories` reads it off). This is what makes the
  leaf-only existence check of `putLocked` sound (`Runs.UncountedIsLive`), and what makes the
  batch path's arithmetic agree with the message-by-message path's (`Leaves.NoneMissed`).
* **The size counter.** `tree.go:271`, the repository's `README.md:177` and its fuzz test
  (`fuzz_test.go:61`) take `Len` for the number of live keys. The code does not keep that: two
  puts of one new key into a buffer with room count twice (`Laws.LenTooLarge` gives such runs for
  every parameter choice with room for two messages). `Laws.RunSizeLaw` is the exact law of every
  reachable state; that `Len` is right when the two miscounts are equal (`Laws.LenExactIff`) is
  a corollary. `Laws.PutDrift` and its neighbours say of every operation, flush included, by how
  much it moves `Len` away from the truth, and `Healing.FlushHeals` that a flush leaves no more
  miscounts than it found, so that its correction is bounded on both sides
  (`Laws.CorrectionBounds`). `Len` is right after every run that puts only new keys and upserts
  only present ones (`Laws.LenExactApt`) and whenever no message waits (`Laws.LenExactSettled`), and
  without upserts it is never too small (`Laws.LenNotTooSmall`).
* **Conservation and work.** The counters are sums over the tree that every flush and split
  conserves; calls of `flushNode` times ⌈(bufferCap + 1) / fanout⌉ never exceed the sum of the
  root's heights at the moments messages were sent (`Laws.RunWork`).
* **Batches.** Every dispatch path of `applyToLeaf` leaves the leaf and both counters as if the
  messages had been applied one by one (`BETrees.BETree.ApplyToLeaf`).
* **Reading.** The newest-first lookup, the oldest-first range merge and the logical map agree
  (`Lookups.GetWithUpserts`, `Iteration.ResolvePath`), and range queries list exactly the live
  pairs asked for, ascending, each once (`Snapshots.MaterializeRange` and its neighbours).
* **Shape.** All leaves equally deep, keys and messages inside their node's interval, children
  between half the fanout and the fanout (`Flushing.FlushShape`), hence a bound on the number of
  leaves (`Laws.RunBushy`).
* **Capacities.** `options.go:69-70` call bufferCap and leafCap the most a buffer and a leaf hold.
  The code does not keep that. With the default options 4097 puts and one range deletion leave 2048
  messages in the root's buffer for 64 (`Overflows.DefaultOverfillsRoot`, one of a family with its
  exact condition, `Overflows.RangeOverfillsRoot`). With WithBlockSize(2) any eight keys put in a
  certain order leave a leaf of three keys where two are allowed (`Witnesses.EightPutsOverfillLeaf`).
  With WithBlockSize(3) and WithEpsilon(1) thirteen puts leave two messages in a buffer for one below
  the root (`Witnesses.ThirteenPutsOverfillBuffer`). The latter two are followed on frames, of which
  `Frames.RunFrame` shows that runs of puts determine them by their keys alone.
  `Capacities.SpillFits` and `Capacities.DeliverFits` say exactly when the root and any other node
  are within capacity after one delivery, in terms of the tree before it. `Bounds.RunBounded` bounds
  every buffer and every leaf after every run by their depth and by the largest range deletion; hence
  the root's buffer fits without range deletions (`Bounds.RunFits`) and all leaves fit while
  fanout^(height-1) times the bound at the root stays below leafCap (`Bounds.RunLeavesFit`).
* **Joins.** The two cursor loops give the intersection and the difference of the two trees,
  ascending, each key once, and end (`MergeJoins.MergeJoin`, `MergeJoins.AntiJoin`).

## Model

| member | source | states |
|---|---|---|
| Runs.RunRefines | tree.go:102-393 | For every sequence of Put, PutIfAbsent, Upsert, Delete, DeleteRange, Get, Contains and Clear from an empty tree, the logical map and all answers are those of a plain map, and the state satisfies the shape, history and counter invariants |
| Runs.RunAnswers | tree.go:102-393 | Its part about answers: for every such sequence every answer is the plain map's |
| Laws.RunSnoc | tree.go:102-393 | A run on the tree and on the plain map is its operations one after the other from the empty one, each answer in its place |
| Runs.NextRefines | tree.go:102-393 | The same as Runs.RunRefines for one operation from any state that satisfies the invariants |
| Runs.PutGood | tree.go:111-151 | A put, counted or not, keeps the invariants and changes the logical map at its key only |
| Runs.DeleteGood | tree.go:241-263 | A delete answers whether the key was live, keeps the invariants and removes that key only |
| Runs.UpsertGood | tree.go:355-381 | An upsert keeps the invariants and gives its key the function's value of the key's logical value, present or absent |
| Runs.DeleteRangeGood | tree.go:301-347 | A range deletion counts the live keys of [lo, hi), removes exactly these and keeps the invariants, on leaf roots and on buffered trees |
| Runs.UncountedIsLive | tree.go:119-139 | A put that the existence check does not take for new finds its key live in the logical map |
| Runs.LeafCheckSound | tree.go:119-139 | With no delete pending, a key present in its leaf is live whatever is buffered over it |
| Runs.SendGood | tree.go:144-150 | Messages in order on top of the root, then the flush and root split they cause, keep the invariants and do to each key what they say |
| Runs.GrowRootPath | flush.go:431-442 | A root split changes no key's path and no key's leaf value |
| Runs.GrowRootShape | flush.go:431-442 | A root split makes the tree one level taller and restores the fanout bound |
| Laws.RunHistories | tree.go:119-144 | Corollary of Runs.RunRefines: after every run every key's buffered messages are in order: each delete and each uncounted put meets a live key |
| Laws.RunSizeLaw | tree.go:122-144 | After every run size is the number of live keys plus the counted puts over live keys minus the upserts over absent keys |
| Laws.LenExactIff | tree.go:271-276 | Corollary of Laws.RunSizeLaw: Len is the number of live keys exactly when those two miscounts are equal |
| Laws.LenExactSettled | tree.go:271-276 | Len is the number of live keys whenever all buffers are empty |
| Laws.LenExactApt | tree.go:271-276 | After every run in which each Put finds its key absent from the plain map and each Upsert finds it present, no message is miscounted and Len is the number of live keys |
| Laws.LenNotTooSmall | tree.go:271-276 | In runs without Upsert Len is never below the number of live keys |
| Laws.PutDrift | tree.go:129-150 | A put moves size away from the number of live keys, by one upwards, exactly when no delete is pending and the key is live but not in its leaf; the flush it may cause adds its correction and nothing else |
| Laws.PutIfAbsentDrift | tree.go:384-393 | An insertion of an absent key adds nothing but the correction of the flush it may cause |
| Laws.UpsertDrift | tree.go:355-381 | An upsert of a buffered tree moves size away by one downwards exactly when its key is absent, apart from the flush's correction |
| Laws.DeleteDrift | tree.go:241-263 | A delete adds nothing but the flush's correction |
| Laws.DeleteRangeDrift | tree.go:301-347 | Nor does a range deletion |
| Laws.OffNext | tree.go:122-144 | One more message on top of a tree adds one to the first miscount exactly if it is a counted put of a live key, and one to the second exactly if it is an upsert of an absent key |
| Laws.CorrectionBounds | flush.go:133-163 | The correction of the flush after a write takes back at most the counted puts over live keys and adds at most the upserts over absent keys |
| Laws.SpillHeals | tree.go:145-150 | The flush and root split after a write leave neither kind of miscount more often than before |
| Healing.FlushHeals | flush.go:8-64 | A flush leaves neither kind of miscount more often than it found it |
| Healing.FlushCorrects | flush.go:133-163 | What a flush adds to size is exactly the upserts over absent keys it resolved minus the counted puts over live keys it resolved |
| Healing.TreeByKey | tree.go:122-144 | The miscounts of a tree are those of its keys, each seen on its own path |
| Laws.TwoPutsCountTwice | tree.go:137-144 | Two puts of an absent key into a root buffer with room add two to size and one to the logical map |
| Laws.LenTooLarge | tree.go:137-144 | Concrete runs, for every bufferCap of at least 2, after which Len is one too large |
| Laws.RunWork | flush.go:8-64 | Moves plus remaining heights plus what Clear dropped equal the heights paid at insertion, and flush calls times the quota are at most the moves |
| Laws.SendCredit | flush.go:8-64 | The heights paid grow by the root's height for each message sent |
| Laws.RunBushy | flush.go:394-442 | After every run a tree of height h >= 1 has at least 2 * ceil(fanout/2)^(h-1) leaves |
| Capacities.SpillFits | tree.go:145-150 | After a buffered write the root's buffer is within capacity exactly when its heaviest bucket holds all of the excess, or the root is full and the flush adds a child to it |
| Capacities.FlushGrows | flush.go:48-63 | A flush adds a child exactly when every node down the heaviest path is full and overflows and the leaf at its end does too |
| Capacities.DeliverFits | flush.go:48-63 | A child, and its halves if it is split, are within capacity after a delivery exactly when: for a leaf, the batch leaves at most twice the capacity; for an inner child, its heaviest bucket holds all of the excess or, if it splits, the buckets on either side of the middle fit |
| Bounds.RunBounded | tree.go:102-393 | After every run whose range deletions removed at most m keys each: a bound on the root's buffer, and by depth on every other buffer and every leaf |
| Bounds.RunNodeBounded | tree.go:102-393 | The same for any one node of the tree, the bounds written out: with r the larger of bufferCap and (m-1)(fanout-1), a buffer at depth d holds at most (fanout-1) * fanout^(d-1) * (r+m-1) messages, a leaf at most leafCap or fanout^(d-1) * (r+m-1) + 1 keys |
| Bounds.NoRangeBounded | tree.go:102-393 | Without range deletions: buffers at depth d hold at most (fanout-1) * fanout^(d-1) * bufferCap messages, leaves at most leafCap or fanout^(d-1) * bufferCap + 1 keys |
| Bounds.RunFits | tree.go:145-150 | Without DeleteRange the root's buffer is within capacity after every operation |
| Bounds.RunLeavesFit | flush.go:49-53 | All leaves of a tree of height h are within capacity if fanout^(h-1) times the excess is below leafCap |
| Overflows.RangeOverfillsRoot | tree.go:331-346 | Runs whose last range deletion leaves (leafCap+1)/2 deletes in the root's buffer, within capacity exactly if that is |
| Overflows.DefaultOverfillsRoot | options.go:69 | With the default options, 2048 messages in a buffer for 64 |
| Overflows.AscendingPuts | flush.go:49-53 | Runs of ascending puts that split the first leaf and then overflow the root: all leaves fit exactly if the last one received no more than twice its capacity, which a leafCap of more than 2 and no less than bufferCap ensures |
| Frames.RunFrame | flush.go:8-64 | After a run of puts the pivots, the leaves' keys and the keys waiting in each buffer are those of the same run on keys alone |
| Witnesses.EightPutsOverfillLeaf | options.go:70 | With fanout 2, bufferCap 1 and leafCap 2, which WithBlockSize(2) gives, a run of eight puts that leaves a leaf over capacity |
| Witnesses.ThirteenPutsOverfillBuffer | options.go:69 | With fanout 3, bufferCap 1 and leafCap 3, which WithBlockSize(3) and WithEpsilon(1) give, a run of thirteen puts that leaves a buffer below the root over capacity |
| Capacities.FlushBuffer | flush.go:29-46 | A flush shortens the buffer by its heaviest bucket, which is not empty and at least the buffer over the number of children |
| Flushing.FlushKeeps | flush.go:8-64 | flushNode leaves the logical map unchanged at every key and keeps every history in order |
| Flushing.FlushSettles | flush.go:8-64 | For each key a flush works some of the oldest messages into the leaf and leaves all others on the path in their order |
| Flushing.FlushShape | flush.go:8-64 | flushNode keeps the shape and adds at most one child to the node |
| Flushing.DeliverSettles | flush.go:48-59 | Handing a bucket to a child appends it, for each key, to what the child records |
| Flushing.BucketAt | flush.go:19-27 | All messages of a key, in order, are in the bucket of the child it routes to, and in no other |
| Flushing.UnflushedAt | flush.go:37-46 | The compacted buffer keeps every message, in order, of keys of other children and none of the flushed child |
| Flushing.SplitShape | flush.go:370-427 | Both halves of an overfull node are in shape on either side of the promoted key |
| Flushing.SplitPath | flush.go:370-427 | The half a key belongs to records for it exactly what the whole node did |
| Flushing.SplitKidPath | flush.go:359-366 | Splitting a child changes no key's path and no key's leaf value |
| Flushing.SplitKidShape | flush.go:359-366 | Splitting an overfull child leaves its parent in shape with one more child |
| Flushing.SelSorted | flush.go:418-423 | The parts of a sorted buffer that go to either half of a split are sorted, so both may keep the flag |
| Ledgers.FlushTotal | flush.go:8-64 | A flush changes the sums behind size, pendingDeletes and the remaining work by exactly what it adds to the counters |
| Ledgers.DeliverTotal | flush.go:90-137 | The same for one delivery, to a leaf by either path or to a buffer |
| Ledgers.SplitKidTotal | flush.go:359-366 | A child split conserves every sum |
| Ledgers.FlushWork | flush.go:29-59 | A flushNode call moves at least ceil((bufferCap+1)/fanout) messages down, and all calls of one flush together at least as many times that |
| Ledgers.DeliverParts | flush.go:48-59 | A delivery counts its own messages as moved and the calls and moves of the one flush it may cause |
| Ledgers.Pigeonhole | flush.go:29-35 | If no bucket holds more than some number of messages, n buckets hold at most n times as many |
| Contents.SizeLaw | tree.go:122-144 | In any tree with shape and histories in order, leaf keys plus counted puts minus deletes is the number of live keys corrected by the two miscounts |
| Contents.LiveIsLookup | tree.go:173-214 | The finite logical map and the lookup along a key's path agree at every key |
| Leaves.ValRun | flush.go:141-164 | Applying messages one by one to a leaf gives each key the fold of its messages over its old value, and keeps the leaf sorted |
| Leaves.BatchSizeGap | flush.go:133-137 | The batch path's size correction exceeds the message-by-message one by the number of deletes that found nothing |
| Leaves.NoneMissed | flush.go:151-153 | With histories in order no delete reaching a leaf misses, so its result may be ignored |
| Batches.OverEffect | flush.go:250-293 | A sorted leaf overridden by a strictly sorted batch of puts is what applying the puts gives |
| Batches.AppendEffect | flush.go:235-242 | Puts beyond the last key may simply be appended |
| Batches.CompactSound | flush.go:305-349 | The compacted leaf and the collected puts are strictly sorted |
| Batches.CompactRun | flush.go:305-355 | Compaction followed by merging the collected puts has the effect of the whole batch of puts and deletes |
| Merging.MergePuts | flush.go:250-293 | The in-place reverse merge over grown arrays, closing copy included, leaves the old leaf overridden by the batch, with oldLen + numPuts - overwrites entries, the overwrites being the puts of keys the old leaf has |
| Merging.MergeIsOver | flush.go:257-281 | The merge seen from its moving cursors, at any point of the way, is the override |
| Merging.CloseGap | flush.go:283-292 | The closing copy moves the merged tail down over the slots the overwrites freed |
| Merging.CompactInPlace | flush.go:305-349 | The left-to-right compaction, collecting new puts in the consumed prefix of the batch, leaves exactly the kept entries and the new puts |
| Merging.WalkIsCompact | flush.go:307-345 | The walk seen from its cursors is the compaction |
| Resolving.ResolveKeyGroup | flush.go:204-229 | The folded message of a key has the effect of the key's messages in order on every starting value, present or absent |
| Resolving.ResolveMessages | flush.go:170-199 | In place: a strictly sorted batch, one message per key, with the same effect on every key and every starting value |
| Resolving.SortMessages | flush.go:171-182 | The batch sorted by key with each key's messages in their order |
| LeafBatches.AppendToLeaf | flush.go:235-242 | The append path leaves what applying the messages one by one would |
| LeafBatches.MergeLeafPuts | flush.go:250-293 | The merge path leaves what applying the messages one by one would |
| LeafBatches.MergeLeafWithDeletes | flush.go:305-355 | The compaction and merge path leaves what applying the messages one by one would |
| LeafBatches.SettleEffect | flush.go:104-118 | Replacing upserts by puts of their results against the leaf changes nothing of a resolved batch's effect |
| LeafBatches.MergeBatch | flush.go:102-131 | Whichever of the merge paths is dispatched to, the leaf ends up as if the messages had been applied one by one |
| Nodes.Node.FindChildIndex | node.go:126-137 | The binary search finds the child whose interval holds the key |
| Nodes.Node.LeafSearch | node.go:141-156 | The binary search finds the key's place and whether it is there |
| Nodes.Node.BufferMessagesForKey | node.go:36-58 | Both paths give all messages of the key, oldest first |
| Messages.HasMeans | node.go:63-109 | What a range holds for each kind of end, in comparisons |
| Nodes.Node.BufferSlice | node.go:63-90 | Both paths give exactly the messages on or between the bounds, by comparison, in buffer order, for all four inclusivities |
| Nodes.Node.BufferSliceScan | node.go:94-109 | The scan gives the messages between the bounds in buffer order |
| Nodes.SortedSlice | node.go:36-90 | In a list where exactly a contiguous stretch lies in a range, selecting by the range is slicing |
| Nodes.Node.AppendToBuffer | node.go:27-30 | Appends the message and gives up the sorted flag beyond one message |
| Nodes.Node.LeafInsert | node.go:160-169 | Inserts or overwrites in place, tells whether the key is new, keeps the leaf sorted |
| Nodes.Node.LeafDelete | node.go:173-181 | Removes in place, tells whether the key was there, keeps the leaf sorted |
| Splits.SplitLeaf | flush.go:370-389 | The leaf keeps the lower half and a new leaf gets the upper half, whose first key is promoted |
| Splits.SplitInternal | flush.go:394-427 | Pivots, children and buffered messages are divided around the promoted middle pivot |
| Splits.SplitChild | flush.go:359-366 | In place: the parent has the two halves instead of the child, and all nodes below stay disjoint |
| Buckets.Partition | flush.go:15-27 | Each child's bucket holds the messages that route to it, in buffer order |
| Buckets.ChooseHeaviest | flush.go:29-35 | The first of the fullest buckets |
| Buckets.CompactBuffer | flush.go:37-46 | Copying the other buckets back over the buffer leaves exactly them, and they fit |
| Buckets.TakeHeaviest | flush.go:12-46 | The heaviest bucket leaves the node's buffer and nothing else of the node changes |
| Iteration.CollectAt | iterator.go:124-192 | A range query meets, for each key of the range, exactly the entries on its path from the root down, and nothing for other keys |
| Iteration.ResolvePath | iterator.go:225-257 | Folding a key's entries level by level from the deepest gives the lookup's value |
| Iteration.ResolveOnTop | iterator.go:225-257 | A level's messages are applied after all deeper ones |
| Listing.ResolveKeyEntries | iterator.go:225-257 | The loops over levels and entries compute that fold |
| Listing.ResolveEntries | iterator.go:197-220 | The resolved pairs are strictly ascending and give each key the fold of its own entries |
| Listing.SortedAt | iterator.go:197-203 | Sorting by key and depth leaves each key's entries in the order they were collected |
| Collectors.Pruned | iterator.go:146-156 | Visiting only the children from lo's to hi's loses no entry of the range |
| Collectors.CollectRange | iterator.go:140-157 | Appends exactly the range's entries of the subtree, in preorder |
| Collectors.CollectAll | iterator.go:124-135 | Appends all entries of the subtree, in preorder |
| Collectors.CollectBufferEntries | iterator.go:160-179 | Appends one entry per message with its depth, no buffer holding a range message |
| Collectors.LeafBounds | iterator.go:182-192 | The indices between the bounds are exactly those of the range's keys |
| Lookups.ExistsInLeaf | tree.go:157-164 | Whether the key is in the leaf it belongs to, whatever is buffered |
| Lookups.ApplyUpsertChain | tree.go:218-231 | Functions collected newest first are applied oldest first |
| Lookups.GetWithUpserts | tree.go:181-214 | The newest-first walk with its collected upserts computes the fold of the whole path from the leaf up |
| Snapshots.MaterializeAll | iterator.go:94-98 | All live pairs, strictly ascending, each once |
| Snapshots.MaterializeRange | iterator.go:102-109 | The live pairs of [lo, hi), strictly ascending, each once; none if lo >= hi |
| Snapshots.MaterializeDescendRange | iterator.go:114-121 | The live pairs of (lo, hi], strictly ascending, each once; none if lo >= hi |
| Snapshots.ListsMeans | iterator.go:94-121 | What is listed for no bounds, for [lo, hi) and for (lo, hi], in comparisons |
| Snapshots.ListsUnique | iterator.go:94-121 | There is only one list of that kind, so the contracts above fix the result |
| Snapshots.EntriesMean | iterator.go:94-121 | In a good tree the collected entries of each key come root first and resolve to its logical value |
| Snapshots.DeleteFromLeaf | tree.go:310-321 | The reverse loop over a leaf root removes exactly the keys of [lo, hi) and counts them |
| BETrees.BETree.constructor | tree.go:82-99 | An empty tree satisfies the invariants |
| BETrees.BETree.ApplyToLeafSmall | flush.go:141-164 | The leaf and both counters change message by message |
| BETrees.BETree.ApplyToLeaf | flush.go:77-138 | By every path, the leaf, size and pendingDeletes end up as if the messages had been applied one by one in order of arrival |
| BETrees.BETree.TallyBatch | flush.go:90-100 | The batch's counted puts and its deletes, before deduplication |
| BETrees.BETree.DeliverTo | flush.go:48-59 | The child gets the bucket and is flushed once if that is too much, with all effects on the counters |
| BETrees.BETree.FlushNode | flush.go:11-64 | In place: the node, everything below it and the counters become what the flush on values says; all nodes stay valid and disjoint |
| BETrees.BETree.SplitRoot | flush.go:431-442 | A new root over the two halves of the old one |
| BETrees.BETree.Get | tree.go:167-171 | The logical map's value if the key is in it and none otherwise, which is the answer of the run step |
| BETrees.BETree.Contains | tree.go:266-269 | Whether the key is in the logical map, which is the answer of the run step |
| BETrees.BETree.Len | tree.go:272-276 | The number of live keys plus the counted puts over live keys minus the upserts over absent ones |
| BETrees.BETree.All | iterator.go:27-44 | The logical map's pairs, ascending, each once |
| BETrees.BETree.Range | iterator.go:62-74 | The logical map's pairs of [lo, hi), ascending, each once |
| BETrees.BETree.Descend | iterator.go:47-59 | The logical map's pairs, descending, each once |
| BETrees.BETree.DescendRange | iterator.go:78-90 | The logical map's pairs of (lo, hi], descending, each once |
| BETrees.BETree.Cursor | tree.go:398-407 | A new cursor, positioned nowhere, over the logical map's pairs |
| BETrees.BETree.PutLocked | tree.go:111-151 | The whole state changes as the put step says, on a leaf root and on a buffered tree |
| BETrees.BETree.CheckNew | tree.go:129-139 | The existence check: by full lookup with deletes pending, by the leaf alone otherwise |
| BETrees.BETree.Put | tree.go:102-106 | The logical map is updated at the key; the invariants hold |
| BETrees.BETree.PutIfAbsent | tree.go:384-393 | Inserts exactly if the key is not in the logical map, and says so |
| BETrees.BETree.Delete | tree.go:234-263 | Removes the key from the logical map and tells whether it was there |
| BETrees.BETree.Upsert | tree.go:355-381 | The key's logical value becomes the function's value of it |
| BETrees.BETree.DeleteRange | tree.go:301-347 | Removes the keys of [lo, hi) from the logical map and returns their number |
| BETrees.BETree.Clear | tree.go:279-285 | Empties the logical map and resets the counters |
| BETrees.RangeKeys | tree.go:323-345 | The keys listed for a range deletion are the range's live keys in ascending order |
| Cursors.NextPrev | cursor.go:15-51 | Immediate from the two steps: Next and Prev undo each other from every position, also across both ends |
| Cursors.NextVisitsAll | cursor.go:15-31 | From nowhere, repeated Next visits all pairs in order and then leaves the end |
| Cursors.PrevVisitsAll | cursor.go:35-51 | The same backwards |
| Cursors.Cursor.Next | cursor.go:15-31 | One step forward, from nowhere to the first pair; answers whether it stands at a pair |
| Cursors.Cursor.Prev | cursor.go:35-51 | One step back, from nowhere to the last pair; answers whether it stands at a pair |
| Cursors.Cursor.Seek | cursor.go:55-72 | The first pair with a key >= the given one, or nowhere if there is none |
| MergeJoins.MergeJoin | examples/mergejoin/main.go:50-76 | Exactly the keys of both trees with the first tree's values, ascending, each once; the loop ends |
| MergeJoins.AntiJoin | examples/mergejoin/main.go:79-101 | Exactly the first tree's keys that are not in the second, ascending, each once; the loop ends |
| MergeJoins.JoinLeft | examples/mergejoin/main.go:61-73 | The first scan's next pair is decided by comparing it with the second scan's, and only with that |

## Left out

- Locks, goroutines and the `closed` flag: each operation runs under one lock and is one step here.
- `disktree.go` and `codec.go`: delegation to the same tree, a caller-supplied store, and encoding.
- `deriveParams` and the option functions (`options.go:29-98`): floating-point powers; of what they guarantee only the bounds fanout >= 2, bufferCap >= 1 and leafCap >= 2 are used. They also keep fanout and bufferCap within leafCap, as all concrete parameters named here are. A rejected option is not modelled.
- `upsert.go`: `Increment` and `CompareAndSwap` are instances of the abstract upsert function.
- Upsert functions that write through the pointer they are given or have other side effects: a function from an optional value to a value stands for them, None being the call with nil and false.
- Slice capacity, `slices.Grow` and its cost, clearing for the garbage collector, and the bucket slices a node keeps between flushes: slices are values or exactly sized arrays, and buckets are separate from the buffer.
- `slices.SortStableFunc` and `slices.BinarySearchFunc` are library code: a verified stable insertion sort and a verified binary search stand in for them.
- Comparators: keys are reals with their order, which any countable strict total order embeds into; the code only compares and copies keys. A comparator that calls different keys equal, so that the small path keeps the old key and the batch path stores the new one, is not distinguished.
- The zero value returned for an absent key: lookups return an option.
- `iter.Seq2` and its early break: the iterators return what they would yield in full.
- What `mergeJoin` and `antiJoin` print beside the keys: the sequence of pairs is returned, and the count of matches is its length.
- `MsgDeleteRange`: no operation creates one, and no buffer ever holding one is part of the shape invariant.
- Tightness of the bounds in `Bounds`: that they are reached is not shown.
- BETrees.BETree.Len: states the exact law instead of the documented number of live keys, which the code does not always return.
- The other examples, the benchmarks, the test harness and the Makefile.
