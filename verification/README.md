# Verified models of the index and checker code

This project models, in Dafny 4.11, the parts of the repository whose correctness is hardest to see: the bloom index
access method, the B-tree and heap checkers of amcheck, variable-length key truncation in btree_gist, the cube data type
and its GiST support, the in-place format upgrade of hstore, and the vector metrics of the storage kernel. Loops and
objects that change are methods and classes proved against specifications; what those specifications mean is proved as
lemmas over all inputs, all runs and all page maps.

* `BloomGenerator`, `BloomSignature`, `BloomPage`: the random generator, signatures and pages.
* `BloomMachine`, `BloomRuns`: insert, bulk delete, cleanup and scan as processes that interleave at buffer locks.
  The invariant is conservation (live tuples plus removed ones are the inserted ones) with page, list and lock invariants.
* `BloomRelation`: the same operations as methods on a relation, and the index build.
* `BtPages`, `BtHalfDead`, `BtLockstep`, `BtLevelWalk`: parent and child levels compared in lockstep, and termination.
* `BtCompare`, `BtOrder`, `BtChildren`: tuple comparison, the order of the items of a level, and of two levels together.
* `BtSiblings`: sibling links under concurrent splits and deletions, and the recheck that must raise no false alarm.
* `GistVar`, `GistVarLayout`, `GistVarHistory`: truncated bounds, their byte layout, and trees over their whole history.
* `Cube`, `CubeSplit`, `CubeOrder`, `CubeKnn`, `CubeTree`, `CubeNearest`: box operations, page split, comparison,
  distances, and scans by condition and by distance.
* `Hstore`, `HstoreUpgrade`: old and new entries, and the decision how to upgrade a value.
* `HeapXid`, `HeapChains`: widening of transaction ids and update chains on a heap page.
* `VectorMetrics`: cosine similarity, Euclidean and Manhattan distance.
* `Basics`: what several modules share.

Some properties one would expect do not hold for every input of the code. Each of these has a concrete input that shows
it and, for all inputs, the condition under which the property holds:

* two generator seeds draw -1 only (`DrawsInRange`, `DrawnBitsInRange`);
* reserved block numbers in corrupt B-trees are accepted (`LockstepExactly`);
* an empty live page at the border of two parent pages hides an order violation between its neighbours
  (`IncreasesExactly`); below one parent page it cannot (`ChildrenInOrder`);
* at the true root, a circle through a half-dead page keeps the level loop going (`NeverEndsExactly`); below an accepted
  level the loop always ends (`BelowAcceptedEnds`);
* splitting a page of cut inner keys can hide values from searches (`CutFindsExactly`, `HalfFindsExactly`,
  `SplitFindsExactly`);
* a contained-by search misses cubes of lower dimension than the query (`ContainedByExactly`);
* the comparison of cubes of different dimensions is not transitive (`TransitiveExactly`);
* an old hstore value can be taken for a new one (`UpgradeKeepsPairsExactly`).

`dafny verify dfyconfig.toml` checks the project.

## Model

| member | source | states |
|---|---|---|
| BloomGenerator.Generator.Rand | postgresql/contrib/bloom/blutils.c:223-248 | myRand computes exactly 16807*s mod (2^31-1) with no value outside 32 bits, from any state of smaller magnitude than the modulus |
| BloomGenerator.Generator.Srand | postgresql/contrib/bloom/blutils.c:250-256 | mySrand leaves 1 plus the truncating remainder of the signed seed modulo 2^31-2, always of smaller magnitude than the modulus of myRand |
| BloomGenerator.SchrageSplit | postgresql/contrib/bloom/blutils.c:226-244 | the split into quotient and remainder by 127773 never overflows and yields the Lehmer step |
| BloomGenerator.DrawsInRange | postgresql/contrib/bloom/blutils.c:223-256 | every value drawn after a seed lies in [0, 2^31-3] if and only if the seed is neither 0xFFFFFFFF nor 0x80000001 |
| BloomGenerator.DegenerateSeedsDrawMinusOne | postgresql/contrib/bloom/blutils.c:250-256 | after the two degenerate seeds every draw is -1 |
| BloomSignature.DrawnBitsInRange | postgresql/contrib/bloom/blutils.c:283-288 | all bits a value draws lie below bloomLength*16 if and only if its mixed seed is not degenerate or it draws none |
| BloomSignature.SignValue | postgresql/contrib/bloom/blutils.c:261-289 | signValue adds exactly the bits determined by the column number and the hash, and clears none; the mixed seed is not degenerate |
| BloomSignature.FormSignature | postgresql/contrib/bloom/blutils.c:294-313 | BloomFormTuple gives a row the union of the bits of its non-null columns |
| BloomSignature.ScanSignature | postgresql/contrib/bloom/blscan.c:90-116 | the search signature is the union of the bits of all keys; there is none exactly when some key is NULL |
| BloomSignature.Covers | postgresql/contrib/bloom/blscan.c:147-155 | the word loop succeeds exactly when the bits of the query are among those of the tuple |
| BloomSignature.CoversIsInclusion | postgresql/contrib/bloom/blscan.c:147-155 | the word-wise subset test is inclusion of bit sets |
| BloomSignature.MatchingRowCovers | postgresql/contrib/bloom/blscan.c:90-155 | a row whose columns equal all keys has a signature that covers the search signature, for any hash that respects equality |
| BloomPage.EmptyPageTakesTuple | postgresql/contrib/bloom/blinsert.c:320-324 | adding to an empty page cannot fail for any legal signature length |
| BloomPage.WorkingPage.Add | postgresql/contrib/bloom/blutils.c:319-347 | BloomPageAddItem appends when the tuple fits and changes nothing otherwise; maxoff and pd_lower stay in step |
| BloomPage.WorkingPage.Compact | postgresql/contrib/bloom/blvacuum.c:85-107 | the two-pointer loop leaves the order-preserving filter of the tuples and the right maxoff |
| BloomPage.WorkingPage.BulkDelete | postgresql/contrib/bloom/blvacuum.c:69-138 | one page of bulk delete: filtered tuples, matching bounds, finished exactly when something changed, exact count |
| BloomPage.VacuumedPageOk | postgresql/contrib/bloom/blvacuum.c:122-137 | the section marks a page deleted exactly when it held tuples and all of them go, and is the identity exactly when none goes |
| BloomMachine.StepKeepsInv | postgresql/contrib/bloom/blinsert.c:206-340 | every atomic section of insert, bulk delete, cleanup and scan, in any interleaving, keeps: live tuples plus removed equal inserted; 0 <= nStart <= nEnd <= capacity; listed and free blocks are data blocks; page layout; lock ownership |
| BloomMachine.VacuumPageKeepsInv | postgresql/contrib/bloom/blvacuum.c:58-139 | a bulk-delete page step keeps the invariant, so it takes from the live tuples exactly what it adds to the removed ones |
| BloomMachine.TakeFreeKeepsInv | postgresql/contrib/bloom/blutils.c:354-395 | taking a block from the free space map keeps the invariant, so it never discards a live tuple |
| BloomMachine.TryFastKeepsInv | postgresql/contrib/bloom/blinsert.c:210-245 | the fast path, on a page that may have been deleted or filled since the metapage was read, keeps the invariant |
| BloomMachine.VacuumFinishKeepsInv | postgresql/contrib/bloom/blvacuum.c:146-158 | installing a page list that may be out of date keeps the invariant |
| BloomMachine.FailKeepsInv | postgresql/contrib/bloom/blinsert.c:206-340 | a backend that gives up between two sections leaves the invariant intact |
| BloomRuns.RunKeepsInv | postgresql/contrib/bloom/blinsert.c:206-340 | the invariant holds after every run |
| BloomRuns.StepFollows | postgresql/contrib/bloom/blinsert.c:206-340 | a tuple leaves its page only by being vacuumed and appears on a page only by being inserted |
| BloomRuns.LockedLoopProgresses | postgresql/contrib/bloom/blinsert.c:256-332 | while a process holds the metapage lock any step either completes its insertion or leaves the list as it is, and each turn of its own leaves one position less to try |
| BloomRuns.ScanIsComplete | postgresql/contrib/bloom/blscan.c:118-168 | a finished scan that reads pages one at a time among arbitrary other steps holds every tuple that was there at its start, has not been vacuumed and covers the signature |
| BloomRuns.ScanFindsMatchingRow | postgresql/contrib/bloom/blscan.c:80-172 | end to end: every row equal to all keys, present at the start and not vacuumed, is in the bitmap |
| BloomRuns.ScanIsSound | postgresql/contrib/bloom/blscan.c:137-163 | in every run each heap pointer in a bitmap belongs to an inserted tuple that covers the signature, if that holds at the start |
| BloomRuns.BulkDeleteIsComplete | postgresql/contrib/bloom/blvacuum.c:53-139 | if nobody inserts a pointer to be deleted, then after the pass no page holds one, although the pass ignores pages added meanwhile |
| BloomRuns.UnclaimedTupleStays | postgresql/contrib/bloom/blvacuum.c:58-139 | in any run a tuple that is not vacuumed stays on its page |
| BloomRelation.BuiltIndexConserves | postgresql/contrib/bloom/blinsert.c:120-158 | from an index that holds the rows of the build, every run keeps live tuples equal to inserted minus removed |
| BloomRelation.Relation.BuildCallback | postgresql/contrib/bloom/blinsert.c:73-115 | the build callback keeps all tuples in heap order, flushing a page only when it is full |
| BloomRelation.Relation.Build | postgresql/contrib/bloom/blinsert.c:120-158 | blbuild stores all rows in heap order and fills every page but the last |
| BloomRelation.Relation.NewBuffer | postgresql/contrib/bloom/blutils.c:354-395 | BloomNewBuffer returns a free block from the free space map or the next block of the file |
| BloomRelation.Relation.TryListedFrom | postgresql/contrib/bloom/blinsert.c:271-309 | the loop inserts on the first listed page that takes the tuple, or changes nothing when none does |
| BloomRelation.Relation.InsertOnNewPage | postgresql/contrib/bloom/blinsert.c:311-332 | the fallback puts the tuple alone on a block, which becomes the whole list |
| BloomRelation.Relation.Insert | postgresql/contrib/bloom/blinsert.c:173-341 | blinsert adds its tuple to exactly one page |
| BloomRelation.Relation.BulkDelete | postgresql/contrib/bloom/blvacuum.c:33-161 | blbulkdelete filters every page, counts the removed tuples exactly over the whole index and installs the new list |
| BloomRelation.VacuumedBelowPages | postgresql/contrib/bloom/blvacuum.c:58-139 | after a pass every page is the filtered image of what it was, and blocks not reached yet are unchanged |
| BloomRelation.CollectedOk | postgresql/contrib/bloom/blvacuum.c:113-120 | the new list holds ascending blocks with room, and misses one only when it is full |
| BloomRelation.ClaimedIsDifference | postgresql/contrib/bloom/blvacuum.c:91-96 | the removal count is the difference of the live tuples |
| BloomRelation.Relation.VacuumCleanup | postgresql/contrib/bloom/blvacuum.c:168-217 | cleanup adds exactly the free blocks to the map, with exact statistics |
| BloomRelation.Relation.GetBitmap | postgresql/contrib/bloom/blscan.c:126-168 | the page loop collects exactly the pointers of tuples that cover the query |
| BtHalfDead.LeftmostIgnoringHalfDeadLoop | postgresql/contrib/amcheck/verify_nbtree.c:1147-1199 | the leftward walk ends on every page map, with the unvisited blocks as measure, and returns what the specification says |
| BtHalfDead.AcceptsExactlyHalfDeadRuns | postgresql/contrib/amcheck/verify_nbtree.c:1147-1199 | it returns true exactly when the left links lead to P_NONE over readable half-dead pages whose right links lead back |
| BtLockstep.ChildHighkeyCheckLoop | postgresql/contrib/amcheck/verify_nbtree.c:2255-2487 | the loop of bt_child_highkey_check computes the specified walk |
| BtLockstep.AcceptedLevelIsLockstep | postgresql/contrib/amcheck/verify_nbtree.c:1490-1505 | in an accepted internal level without reserved links the downlinks in order are exactly the matched pages of the child chain, which begins at a leftmost page, ends at a rightmost one and repeats no block |
| BtLockstep.AcceptedVisitsAreExcused | postgresql/contrib/amcheck/verify_nbtree.c:2667-2833 | each page passed without a downlink is ignorable, a root, right of an incomplete split, or the top of an interrupted deletion; each high key equals the separator of the parent level |
| BtLockstep.MissingCheckExcuses | postgresql/contrib/amcheck/verify_nbtree.c:2667-2833 | bt_downlink_missing_check accepts only those excuses, with the descent to a half-dead leaf as evidence |
| BtLockstep.LockstepExactly | postgresql/contrib/amcheck/verify_nbtree.c:2261-2320 | acceptance means lockstep if and only if no downlink is 0 and right links are sound from every child, so that the carried state cannot mistake a reserved block number |
| BtLockstep.ZeroDownlinkAccepted | postgresql/contrib/amcheck/verify_nbtree.c:2294-2312 | a level whose only downlink is 0 is accepted without a visit |
| BtLockstep.LostLinkAccepted | postgresql/contrib/amcheck/verify_nbtree.c:2294-2298 | two children are accepted although no right link connects them |
| BtLevelWalk.WalkLevel | postgresql/contrib/amcheck/verify_nbtree.c:788-973 | the readonly level loop, without any bound, ends by itself on every level that does not lead into a circle, and has then visited the whole level, each block once |
| BtLevelWalk.NeverEndsExactly | postgresql/contrib/amcheck/verify_nbtree.c:788-973 | on any page map the level loop goes on for ever if and only if right links lead from its first block into a circle of pages that can be read, are not deleted, have high keys and right links, and, where live, are of the level and have left links that answer; otherwise it ends within one turn more than the index has blocks |
| BtLevelWalk.CircleHasHalfDead | postgresql/contrib/amcheck/verify_nbtree.c:799-840 | every such circle passes a half-dead page |
| BtLevelWalk.BelowAcceptedEnds | postgresql/contrib/amcheck/verify_nbtree.c:653-670 | the block an accepted level hands down is the first child visited, and the level loop from there always ends, half-dead pages or not |
| BtLevelWalk.RootPassNeverEnds | postgresql/contrib/amcheck/verify_nbtree.c:788-973 | the pass over a true root level of a live and a half-dead page that point at each other never ends |
| BtLevelWalk.PassWalks | postgresql/contrib/amcheck/verify_nbtree.c:762-986 | a level pass that succeeds has made the same walk as the bare level loop, to its end |
| BtSiblings.StepKeepsInv | postgresql/src/backend/access/nbtree/nbtpage.c:2597-2647 | splits, unlinks and new roots, also on recycled blocks, keep right and left links of live pages in agreement and every level free of rings |
| BtSiblings.SplitAgrees | postgresql/src/backend/access/nbtree/nbtinsert.c:1891-1950 | the first phase of a split keeps right and left links in agreement |
| BtSiblings.NeverRefused | postgresql/src/backend/access/nbtree/nbtpage.c:2470-2551 | on sound links a split or the unlinking of a page that is not rightmost never meets the mismatch it checks for |
| BtSiblings.NoFalseAlarm | postgresql/contrib/amcheck/verify_nbtree.c:1236-1336 | whatever splits, deletions and recyclings happen before the recheck, and between its two reads while the left page is locked, it raises no error, for a left page with a right sibling that was not deleted before the snapshot the verifier holds |
| BtSiblings.RecheckIsExact | postgresql/contrib/amcheck/verify_nbtree.c:1255-1336 | on any links it passes a live left page exactly when the coupled read shows agreement |
| BtSiblings.RecheckOnSoundLinks | postgresql/contrib/amcheck/verify_nbtree.c:1255-1336 | on sound links it alarms exactly when the left page is live and has no right sibling |
| BtCompare.CompareLoop | postgresql/src/backend/access/nbtree/nbtsearch.c:682-852 | _bt_compare with its attribute loop computes the specified comparison |
| BtCompare.TestL | postgresql/contrib/amcheck/verify_nbtree.c:3218-3268 | invariant_l_offset is strict dictionary order, missing attributes and heap TID lowest |
| BtCompare.TestLeq | postgresql/contrib/amcheck/verify_nbtree.c:3281-3291 | invariant_leq_offset of a full key with heap TID, against a tuple without posting list, is the weak dictionary order |
| BtCompare.TestG | postgresql/contrib/amcheck/verify_nbtree.c:3304-3326 | invariant_g_offset is strict order above the highest TID of an ascending posting list |
| BtOrder.ItemsCheckIsExact | postgresql/contrib/amcheck/verify_nbtree.c:1425-1872 | the item loop accepts a page exactly when its items are well formed, strictly increasing, bounded by the high key and below the key found to the right |
| BtOrder.AcceptedLevelIncreases | postgresql/contrib/amcheck/verify_nbtree.c:1975-2176 | in an accepted level whose live pages all hold items, any two items of the whole level are in strict order, also across half-dead pages |
| BtOrder.IncreasesExactly | postgresql/contrib/amcheck/verify_nbtree.c:1831-1872 | for every stretch of an accepted level the items increase strictly if and only if they do so around its empty live pages |
| BtChildren.AcceptedIsChecked | postgresql/contrib/amcheck/verify_nbtree.c:2502-2607 | on every page of an accepted level the high key of each child is the next separator and the items of each child come after its downlink key |
| BtChildren.BorderAccepted | postgresql/contrib/amcheck/verify_nbtree.c:2502-2607 | a tree of four levels passes all checks from the root down although leaf items decrease across an empty page whose right neighbour has a downlink with a key, because another parent page begins in between |
| BtChildren.ChildrenInOrder | postgresql/contrib/amcheck/verify_nbtree.c:2502-2607 | in an accepted pair of levels the items of any two children of one parent page are in strict order, however many empty pages lie between, unless the left child is half of an unfinished split |
| BtChildren.GapAccepted | postgresql/contrib/amcheck/verify_nbtree.c:2155-2168 | a tree of three levels passes all checks from the root down although its leaf items decrease across an empty page at the border of two parent pages |
| GistVar.NodeCpLen | postgresql/contrib/btree_gist/btree_utils_var.c:120-162 | the loop returns the length of the common prefix of both bounds |
| GistVar.VarUnionLoop | postgresql/contrib/btree_gist/btree_utils_var.c:321-357 | gbt_var_union folds all entries and cuts to the common prefix plus two |
| GistVar.CutKeepsExactly | postgresql/contrib/btree_gist/btree_utils_var.c:203-228 | cutting bounds beyond their common prefix keeps everything an entry covers if and only if, where the cut upper bound extends that of an entry that may itself have been cut, it does so by bytes 255 only |
| GistVar.UnionCovers | postgresql/contrib/btree_gist/btree_utils_var.c:321-357 | a union key covers whatever its entries cover |
| GistVar.MatchIsNotPruned | postgresql/contrib/btree_gist/btree_utils_var.c:553-612 | an inner key that covers a matching value is consistent for all six strategies |
| GistVar.CutFindsExactly | postgresql/contrib/btree_gist/btree_utils_var.c:190-228 | cutting the bounds of several entries hides nothing that one of them covers from any search, for all six operators, if and only if the cut is safe for it or its upper bound starts with the cut lower bound |
| GistVar.SearchIsFilter | postgresql/contrib/btree_gist/btree_utils_var.c:553-612 | over a tree whose inner keys cover what is below them, a scan that follows consistent entries returns exactly the matching values, in order |
| GistVar.TruncationHidesNothing | postgresql/contrib/btree_gist/btree_utils_var.c:321-357 | in any tree whose inner keys are unions of the page below, or come from gbt_var_picksplit over leaf entries, no match is hidden |
| GistVar.AdjustedNodeIsOk | postgresql/contrib/btree_gist/btree_utils_var.c:321-357 | the union of an entry and the key of one more child covers both |
| GistVarHistory.ApplyIsOk | postgresql/src/backend/access/gist/gistutil.c:315-364 | inserting along a path with every entry on it adjusted, removing a leaf entry, and splitting a page where the cut is safe keep every inner key covering what is below it, and change the values by exactly what they say |
| GistVarHistory.HistoryHidesNothing | postgresql/contrib/btree_gist/btree_utils_var.c:321-357 | after any history of insertions, removals, splits and new roots from an empty index, where pages of inner entries are split only if the cut is safe for the half with the shorter common prefix, a scan returns exactly the matching values, and the index holds exactly those inserted and not removed |
| GistVar.PickSplit | postgresql/contrib/btree_gist/btree_utils_var.c:457-547 | gbt_var_picksplit, for any order of the entries, returns the specified split: first half left, rest right, neither empty, both bounds cut at the longer common prefix plus two |
| GistVar.HalfKeepsExactly | postgresql/contrib/btree_gist/btree_utils_var.c:529-544 | one half of a split keeps everything its entries cover if and only if the cut is safe for each of them |
| GistVar.HalfFindsExactly | postgresql/contrib/btree_gist/btree_utils_var.c:529-544 | searches of one half of a split return exactly the matching values, whatever lies below its entries, if and only if the cut is harmless in that sense for each of them |
| GistVar.SplitFindsExactly | postgresql/contrib/btree_gist/btree_utils_var.c:519-544 | a split hides nothing from any search, whatever lies below the entries, if and only if the cut is harmless for the entries of the half whose bounds have the shorter common prefix |
| GistVar.LeafHalfIsOk | postgresql/contrib/btree_gist/btree_utils_var.c:529-544 | splitting a page of leaf entries loses nothing |
| GistVarHistory.HalvesAreSplit | postgresql/contrib/btree_gist/btree_utils_var.c:513-544 | the halves and keys used in histories are those of gbt_var_picksplit |
| GistVarHistory.LeafPageSplits | postgresql/contrib/btree_gist/btree_utils_var.c:513-544 | a page of leaf entries can always be split in a history |
| GistVarHistory.EvenPageSplits | postgresql/contrib/btree_gist/btree_utils_var.c:513-544 | so can any page whose halves have bounds with equally long common prefixes |
| GistVarHistory.HalvesKeepValues | postgresql/contrib/btree_gist/btree_utils_var.c:513-544 | a split of any page moves the values below it and neither adds nor loses one |
| GistVarHistory.InnerSplitLoses | postgresql/contrib/btree_gist/btree_utils_var.c:513-544 | four sorted entries made by unions and the split gbt_var_picksplit makes of their page: an equality search finds a value before the split and misses it afterwards |
| GistVarLayout.CopyReadsBack | postgresql/contrib/btree_gist/btree_utils_var.c:55-102 | a stored inner key is read back as its bounds and never taken for a leaf key |
| GistVarLayout.DatumReadsBack | postgresql/contrib/btree_gist/btree_utils_var.c:55-84 | a stored leaf key is read back as its value and taken for a leaf key |
| Cube.Union | postgresql/contrib/cube/cube.c:747-805 | cube_union_v0 spans both boxes in every dimension, missing dimensions as zero, and no more |
| Cube.Overlap | postgresql/contrib/cube/cube.c:1193-1229 | cube_overlap_v0 holds exactly when the zero-extended boxes meet |
| Cube.Contain | postgresql/contrib/cube/cube.c:1123-1159 | cube_contains_v0 holds exactly when a contains b in all dimensions of b |
| Cube.MatchIsNotPruned | postgresql/contrib/cube/cube.c:678-732 | a leaf that passes overlap, same or contains makes every covering inner key pass, and contained-by too when the query reaches zero beyond the leaf |
| Cube.ContainedByExactly | postgresql/contrib/cube/cube.c:707-732 | a contained leaf passes under every covering key if and only if the query contains zero in the dimensions only it has |
| Cube.ContainedByHidden | postgresql/contrib/cube/cube.c:707-732 | a point contained by a two-dimensional query off its line is pruned |
| CubeTree.UnionAll | postgresql/contrib/cube/cube.c:424-449 | g_cube_union returns the smallest box over two or more entries, and no box for a single one |
| CubeTree.SearchIsFilter | postgresql/contrib/cube/cube.c:678-732 | over a tree whose inner keys cover what is below them, a scan returns exactly the cubes that satisfy the query, in order; for contained-by, if the query reaches zero beyond every matching cube |
| CubeTree.KeyBoundsDistances | postgresql/contrib/cube/cube.c:1475-1498 | the distance of an inner key is a lower bound for every cube below it |
| CubeKnn.Distance | postgresql/contrib/cube/cube.c:1252-1395 | the three distance loops combine the gaps along all axes, missing dimensions as zero |
| CubeKnn.KeyIsNearest | postgresql/contrib/cube/cube.c:1252-1395 | taxicab, squared Euclidean and Chebyshev distance of a covering key are at most those of the covered cube |
| CubeKnn.KeyCoordinateIsLowest | postgresql/contrib/cube/cube.c:1405-1474 | ordering by a coordinate, also inverted: the value of a covering key is at most that of the entry below it, leaf or inner |
| CubeNearest.ValueIsLowest | postgresql/contrib/cube/cube.c:1397-1500 | whatever the ordering operator, the value of an inner key is at most that of any entry it covers |
| CubeNearest.NearestFirst | postgresql/src/backend/access/gist/gistget.c:560-606 | an ordered scan over a tree of cubes returns them in order of their values at every moment; it can always go on until each entry of the tree has been taken once, and then it has returned all of them, each once |
| CubeOrder.Compare | postgresql/contrib/cube/cube.c:937-1012 | cube_cmp_v0 is the first difference of the bounds in its order |
| CubeOrder.CmpZeroIsSame | postgresql/contrib/cube/cube.c:937-1012 | cubes compare as equal exactly when dimension and bounds agree |
| CubeOrder.TransitiveExactly | postgresql/contrib/cube/cube.c:937-1012 | the comparison is transitive among cubes of two dimensions if and only if these are equal or one is 0 |
| CubeOrder.CmpCircle | postgresql/contrib/cube/cube.c:937-1012 | three cubes of two different positive dimensions go round in a circle |
| CubeSplit.PickSplit | postgresql/contrib/cube/cube.c:511-655 | g_cube_picksplit splits all entries into two non-empty, ascending, disjoint lists that fit their arrays with the sentinel; each box is the smallest over its side; every entry but the seeds is on the side whose box, as it stood, grew less by it, right on a tie |
| CubeSplit.ChooseSeeds | postgresql/contrib/cube/cube.c:546-578 | the seeds are the first pair, without the last entry, whose union wastes most space; with only two entries, these |
| HstoreUpgrade.Value.ValidOldFormat | postgresql/contrib/hstore/hstore_compat.c:170-229 | hstoreValidOldFormat, with an int position that wraps, gives the verdict specified without wrapping |
| HstoreUpgrade.Value.ValidNewFormat | postgresql/contrib/hstore/hstore_compat.c:118-162 | hstoreValidNewFormat gives the specified verdict: growing positions and keys, no null key, and a size that fits |
| HstoreUpgrade.Value.ConvertEntries | postgresql/contrib/hstore/hstore_compat.c:319-341 | the in-place overwrite turns each old entry into its two new ones and leaves the rest |
| HstoreUpgrade.Value.Upgrade | postgresql/contrib/hstore/hstore_compat.c:235-347 | hstoreUpgrade takes the decided branch and leaves the resulting words, flag and size |
| Hstore.ConversionKeepsPairs | postgresql/contrib/hstore/hstore_compat.c:325-337 | the converted entries decode to the same ordered list of keys, values and nulls |
| Hstore.ConversionIsNewFormat | postgresql/contrib/hstore/hstore.h:17-34 | converted positions do not decrease, only the first entry is marked, keys grow and are not null |
| HstoreUpgrade.ConvertedSizeIsExact | postgresql/contrib/hstore/hstore.h:142-147 | the size set after conversion is exactly what the data needs |
| HstoreUpgrade.LooksNewExactly | postgresql/contrib/hstore/hstore_compat.c:250-256 | the first word of an old value looks new if and only if its first value length is 32768 or more, which below 32768 bytes only a null can have |
| HstoreUpgrade.SmallOldIsConverted | postgresql/contrib/hstore/hstore_compat.c:250-256 | an old value under 32768 bytes with a non-null first value is never taken for new |
| HstoreUpgrade.UpgradeKeepsPairsExactly | postgresql/contrib/hstore/hstore_compat.c:235-347 | the upgrade keeps the ordered list of an old value if and only if it is not a value below 32768 bytes whose first value is a null with a stored length of 32768 or more |
| HstoreUpgrade.MisreadExample | postgresql/contrib/hstore/hstore_compat.c:250-256 | a one-pair value that is taken for new and read differently |
| HeapXid.WidenRecoversExactly | postgresql/contrib/amcheck/verify_heapam.c:1880-1917 | widening recovers the 64-bit id if and only if it lies in (next-2^31, next+2^31] |
| HeapXid.WidenIsNormal | postgresql/contrib/amcheck/verify_heapam.c:1880-1917 | a normal id is always widened to a normal id |
| HeapXid.CheckContext.GetXidStatus | postgresql/contrib/amcheck/verify_heapam.c:2014-2049 | get_xid_status refreshes the cache only when needed and returns the verdict of its bounds |
| HeapXid.AssignedIsNotInFuture | postgresql/contrib/amcheck/verify_heapam.c:2031-2045 | however stale the cache, an id given out less than 2^31 ids ago is not reported as in the future |
| HeapXid.StatusIsAboutTheId | postgresql/contrib/amcheck/verify_heapam.c:2031-2049 | for an id less than 2^31 behind the counter and at most 2^31 ahead of the cached one the verdict is about the id itself |
| HeapXid.RunHasNoFuture | postgresql/contrib/amcheck/verify_heapam.c:2014-2049 | no run of calls over ids given out less than 2^31 ids ago reports one as in the future |
| HeapXid.RunIsExact | postgresql/contrib/amcheck/verify_heapam.c:2014-2049 | under a counter that never goes back each id in that window is reported as in the future exactly when it has not been given out |
| HeapChains.CheckPage | postgresql/contrib/amcheck/verify_heapam.c:444-776 | the three loops with their arrays produce the specified reports |
| HeapChains.ChainCheck.CheckLinks | postgresql/contrib/amcheck/verify_heapam.c:580-744 | the second loop appends the specified reports and leaves the specified predecessor of every offset |
| HeapChains.PredecessorIsLeast | postgresql/contrib/amcheck/verify_heapam.c:580-744 | that value is the least offset that links to n, or none |
| HeapChains.LinksSoundExactly | postgresql/contrib/amcheck/verify_heapam.c:580-744 | the second loop reports neither an intersection nor a wrong mark if and only if every tuple has at most one incoming link and marks agree along all links |
| HeapChains.QuietExactly | postgresql/contrib/amcheck/verify_heapam.c:580-776 | no report on the shape of chains is made if and only if, in addition, every heap-only tuple known not to be aborted has an incoming link |
| VectorMetrics.CosineSimilarity | src/storage/vector_storage.c:142-158 | the accumulation loop computes the cosine of the two vectors, 0 for a zero vector |
| VectorMetrics.CauchySchwarz | src/storage/vector_storage.c:147-151 | for every dimension the squared dot product is at most the product of the squared norms |
| VectorMetrics.CosineInUnit | src/storage/vector_storage.c:142-158 | the similarity lies in [-1, 1] |
| VectorMetrics.EuclideanDistance | src/storage/vector_storage.c:161-170 | the loop computes the root of the squared differences |
| VectorMetrics.EuclideanTriangle | src/storage/vector_storage.c:161-170 | the Euclidean distance satisfies the triangle inequality |
| VectorMetrics.ManhattanDistance | src/storage/vector_storage.c:173-181 | the loop sums the absolute differences |
| VectorMetrics.ManhattanTriangle | src/storage/vector_storage.c:173-181 | the Manhattan distance satisfies the triangle inequality |
| VectorMetrics.DistancesAreMetrics | src/storage/vector_storage.c:161-181 | both distances are symmetric and zero exactly between equal vectors |

## Left out

- BloomSignature.SignValue: requires that the mixed seed is not degenerate, because the bit that the source would set is then negative; DrawnBitsInRange states exactly when this happens.
- BloomSignature.FormSignature: has the same requirement for every column of the row.
- BloomSignature.ScanSignature: has the same requirement for every key; keeping a signature over rescans is not modelled.
- BtLevelWalk.WalkLevel: requires that right links lead into no circle, which by NeverEndsExactly is exactly when the loop ends.
- BtLockstep.ChildHighkeyCheckLoop: stops after a given number of reads on corrupt circular links, where the source would go on; all results hold for every such number.
- BtOrder.ItemsCheckIsExact: the walk over half-dead pages to the right stops after a given number of reads; the results hold for every such number.
- BtSiblings.NoFalseAlarm: the transaction horizon is a mark on deleted pages: whether their deletion came before the verifier's snapshot, so that they may be recycled.
- GistVar.PickSplit: the sort of the entries is a parameter, so any order is covered and that order itself is not.
- BtChildren.ChildrenInOrder: says nothing about children of different parent pages, for which GapAccepted and BorderAccepted show that nothing need hold, or about a left child whose split is unfinished.
- GistVarHistory.HistoryHidesNothing: a page of inner entries is split only where the cut is safe for the half whose bounds have the shorter common prefix, because of InnerSplitLoses; splits of leaf pages are not restricted.
- HeapXid.CheckContext.GetXidStatus: ends at the bounds of the id; the commit status that the source then looks up is not modelled.
- HeapChains.CheckPage: the outcome of the tuple checks is part of the page; header, attribute, TOAST and multixact checks are not modelled, and the second look at a running transaction is part of the page as well.
- Bloom: options, cost estimates, operator class validation, buffer pins and the bytes of WAL records; the free space map is a set of blocks; hash and equality are parameters.
- B-tree checker: indexes before version 4, INCLUDE columns, uniqueness, heapallindexed and rootdescend checks.
- B-tree operations: only the links that splits and deletions write; page contents and the second phase of a split are not modelled.
- btree_gist: multibyte and bit types, key transformation for inner nodes, penalties; keys are byte strings compared bytewise.
- cube: text input and output, penalty, subset and enlarge functions, coordinate number -2147483648; coordinates are real numbers, so rounding, infinity and NaN are not modelled.
- hstore: big-endian layouts, a build as hstore-new, values with fewer entry words than their count claims, and all other hstore functions.
- Vector metrics: float rounding; the square root is a parameter that squares back. The remaining functions of the storage kernel are small wrappers or stubs.
- Texts of error messages and severity levels.
