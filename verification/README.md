# Block heap, containers and text of the message core

A Dafny model of the parts of the message core that are hardest to get right, with
proofs about them.

* **The block heap** (`MsgVBHeap.cpp`, the BSTRio arm): a boundary-tag allocator in
  one relocatable arena.  Blocks tile the arena, free blocks form a list, an
  allocation collates while it looks for the best fit, a free merges forwards
  through headers and backwards through tags that are only hints, and growth
  appends to the arena without moving an offset.
* **The image** (`MsgVBHeap.cpp`, `P2PmsgMgr.cpp`): the tags are taken out before the
  arena is saved and put back afterwards.
* **The gate** (`MsgVBHeap.cpp`): the walk that judges an arena of unknown origin.
* **The containers**: doubly linked collections (`MsgDesc.cpp`, `MsgAttr.cpp`), the
  two-ended cursor and the tree cursor (`MsgCurs.cpp`), vectors over a chain of slot
  blocks (`MsgVect.cpp`), and snapshot stacks (`MsgStck.cpp`).
* **Stand-alone algorithms**: the wildcard matcher (`Msgcore.cpp`), the inode scheme
  (`Msgcore_c.cpp`), and the text conversions (`MsgFieldRef.hpp`).

## How it is built

The heap is modelled twice.  `HeapModel`, `Allocator`, `AllocGuarantee`, `FitChoice`,
`Freeing`, `Tally`, `Saving` and `Founding` describe it as a value: a map of blocks, the
free list as a sequence, the set of free blocks known to be tagged.  `Arena` holds the
class that does the work on bytes, field by field, in the order the code does it;
its `Valid` says that the bytes, the key block and the handle describe a well-formed
heap, and each method says which function of the value it performs.  `Bytes`,
`Layout` and the `Mirror` modules connect the two: a heap is mirrored by its bytes,
and a write inside one free block leaves every live byte, link and tag alone.
`MirrorFree`, `MirrorMerge`, `MirrorStray` and `MirrorSight` are about the look back of
a free: what it answers for any bytes, how that is told before the call, and what a
merge that starts where no block does leaves behind.

`Steps` lists what a client may do.  A state holds the arena and the key block beside
the heap they describe, so that what a look back answers is what the bytes say.
`Runs` proves what holds in every state of every run, `StrayRun` and `LostRun` follow
runs in which a promise of the code fails.  `GateMeaning` says of the bytes alone what the
gate accepts.  The containers are classes proved against plain sequences; `Naming` and
`NamePlaces` are about the order of names, `DeepFree` about the freeing of nested elements.

One address width `w` (2, 4 or 8 bytes) is a parameter throughout; a 64-bit size is
read through 32 bits as the code reads it.

## What the proofs found

* "A stale footer cannot cause a wrong merge" (`MsgVBHeap.cpp:1019`) does not hold.  The
  bytes a stale tag leads to may be the size field of another block's tag, which reads
  as the header of a free block of just that size.  `StrayRun.ClientAstray` follows a
  run of 23 allocations, links and frees, with no byte of payload written, whose last
  free merges into a place where there is no block; afterwards no heap at all is
  described by the bytes, and `StrayRun.Rerun` shows that there is such a run.
* The exact condition is a walk a caller can make before the call
  (`Arena.BlockHeap.WouldStray`): a free goes as it should if and only if the tag in
  front of the block leads to nothing, or to a place the walk over the blocks comes by
  (`Runs.RunFree`).  A tagged block in front is always found (`MirrorSight.SightTagged`),
  and only a byte that is the flag byte of a free block, inside a block, can imitate a
  header (`MirrorFree.DecoyPlace`); a cleared header cannot, until something covers it
  (`MirrorFree.GraveImitatesNothing`).  Where the walk is not met, the free leaves no
  heap in which the block was given back and free blocks were only merged, and no heap
  at all unless it overwrote a header (`MirrorSight.AstrayRuins`); one family of places
  is left out of this half, the `Steady` condition below.
* The count of bytes handed out drifts when a free is refused: the subtraction comes
  before the refusal (`MsgVBHeap.cpp:4199`), and an unlinked block is marked
  linked by the very check that refuses it.  `Runs.RunAccounts` gives the exact
  condition: the count is that of live blocks if and only if the bytes of refused
  frees add up to a multiple of 2^64.  `LostRun.Drift` is a run of two actions after
  which they do not.
* A request within a header of 2^64 bytes wraps (`MsgVBHeap.cpp:4950-4952`): the rounded
  size covers it exactly when the sum does not wrap (`Runs.RoundedCovers`), and when it
  does and can be served, a block smaller than the request is granted
  (`Runs.WrappedGrant`), on every new heap for one (`Runs.WrappedOnCreation`).
* A new heap is well formed if and only if the creation size is a multiple of 8 and
  leaves 8 bytes below the ceiling: the key block counts the rounded size while the
  handle keeps the unrounded one (`MsgVBHeap.cpp:3479-3497`).  See
  `Arena.BlockHeap.constructor`.
* The re-check of the chosen block works because a block that may still be bettered
  is at least two minimum blocks long, hence longer than a tag, so that when it is
  swallowed its cleared header is never overwritten by a tag (`MirrorWalk.ConsiderHeld`,
  `MirrorWalk.GraveReads`).  A cleared header alone would not do.
* "A tag must not reach an image on disk" (`MsgVBHeap.cpp:1110`) holds for the tags of
  the blocks that are free when the image is taken (`Saving.ImageUntagged`), and then
  the image is the same whichever of them were in place (`Saving.SameImage`).  A tag
  left behind in a block that has grown or been handed out since is saved, exactly when
  its first four bytes lie where no free block has its tag (`Saving.StaleTags`);
  `StrayRun.StaleTagSaved` is a run that gets there.
* Names are compared over the length of the shorter, and `>` is the negation of `<`
  (`P2Pmsg.cpp:2179-2195`), so a name compares alike to each that begins it, and the arm
  of the binary search meant for an exact match is never taken.  Sorted insertion of a
  name alike to one that is there may find no place; the assertion that says so is
  compiled out, and the item is then linked in between nothing and nothing, which cuts
  the collection off from its ends (`Collection.Desc.SortinItem`, and
  `Naming.FiledNowhere` for the names; `Naming.NowhereExact` says when).  Or it keeps its place and breaks the order
  (`Naming.FiledDisorder`), exactly when the name overtakes one (`Naming.PlaceKeeps`).
  Names none of which begins another are always sorted (`Naming.FiledSorts`).
* The bound on the walk is computed once, before the arena grows, and still covers
  the longer list afterwards (`Tally.BudgetCovers`).
* Writing text whose 32-bit characters include a number past U+10FFFF leaves one
  terminating unit too many for each (`Text.TextToUnits`); text read from UTF-8 has
  none (`Text.TextComesBack`).

## Model

| member | source | states |
|---|---|---|
| HeapModel.AbsorbKeeps | MsgVBHeap.cpp:2605-2668 | merging a free block with the free one behind it keeps the tiling and the free list exact and drops exactly one entry |
| HeapModel.CollateKeeps | MsgVBHeap.cpp:2572-2671 | a collated block has swallowed the whole run of free blocks behind it, every live block stands, and it is tagged unless it is physically last |
| HeapModel.GrownTidy | MsgVBHeap.cpp:2572-2671 | collation repairs the coalescing guarantee at the block it starts from and breaks it nowhere |
| HeapModel.TakeKeeps | MsgVBHeap.cpp:2751-2835 | a block taken off the list is at least as large as asked, wastes less than a minimum block, and touches no live block; the heap stays well formed |
| HeapModel.TakeInList | MsgVBHeap.cpp:2751-2835 | the front of the block is handed over; what is left takes its place on the list if it is at least a minimum block, and else goes with it |
| HeapModel.TakeTidy | MsgVBHeap.cpp:2815-2817 | splitting or adopting keeps every free block coalesced and tagged |
| HeapModel.GrowKeeps | MsgVBHeap.cpp:2331-2395 | growth adds one free block of that size behind the last, at the tail of the list, and moves or changes nothing live |
| HeapModel.GrowTidy | MsgVBHeap.cpp:2364-2386 | after growth only the free block right below the new one can be out of order |
| HeapModel.ReleaseKeeps | MsgVBHeap.cpp:4051-4089 | a live block put back at the head of the list leaves a well-formed heap with the same other live blocks |
| Allocator.WalkKeeps | MsgVBHeap.cpp:4741-4786 | a whole pass only merges free blocks: the arena, the live blocks and the first-allocation address stay |
| Allocator.WalkEnds | MsgVBHeap.cpp:4747-4753 | a pass over a well-formed heap never reports a cyclic list |
| Allocator.WalkSound | MsgVBHeap.cpp:4747-4798 | the block a pass chose still fits if it is still there, and some other block fits if it was swallowed; a first-fit pass never loses its choice |
| Allocator.WalkSettles | MsgVBHeap.cpp:4747-4786 | a pass that chose nothing has merged every run of free blocks and every one is too small |
| Allocator.WalkFinds | MsgVBHeap.cpp:4747-4786 | a fitting block on the list is never missed |
| Allocator.RunFits | MsgVBHeap.cpp:4788-4832 | with a fitting block on the list the pass or the one first-fit retry serves the request without growth |
| Allocator.PassFails | MsgVBHeap.cpp:4747-4786 | a pass chooses nothing exactly when no run of adjacent free blocks is long enough |
| AllocGuarantee.WalkTidiesGrowth | MsgVBHeap.cpp:4747-4786 | the pass after growth merges the block below the new one before it can settle, so the coalescing guarantee is back when it ends |
| AllocGuarantee.AllocationServes | MsgVBHeap.cpp:4694-4891 | an allocation is refused exactly when no run of free blocks is long enough and the arena cannot grow by the request; the three internal refusals are unreachable, the arena is as long as it was or one growth longer, and every other live block stands |
| AllocGuarantee.GrowthInNumbers | MsgVBHeap.cpp:2331-2346 | a growth is by what is needed, by a fifth of the arena if that is more, or up to the ceiling if there is less room than a fifth |
| FitChoice.BoundedBestFit | MsgVBHeap.cpp:4747-4786 | the choice is the first exact fit among the first fitting blocks in list order after collation, as many as the pass looks at, or else the smallest of them |
| FitChoice.ChosenOfEight | MsgVBHeap.cpp:4765-4786 | the first eight blocks that fit decide: the first that leaves less over than a minimum block, or else the smallest, the earliest of equals; a ninth is never looked at |
| FitChoice.FirstFitIsFirst | MsgVBHeap.cpp:4772-4777 | the retry chooses the first block that fits |
| FitChoice.SmallestGranted | MsgVBHeap.cpp:4747-4832 | from a list of at most eight blocks with nothing to merge and no exact fit the request is granted from the smallest that fits |
| FitChoice.LastOfThree | MsgVBHeap.cpp:4747-4832 | from 300, 200 and 120 bytes, in that order, 90 bytes are granted from the 120 |
| Freeing.FreedKeeps | MsgVBHeap.cpp:4051-4106 | with the look back answered by a free block that ends there, or by nothing when none is tagged, freeing gives exactly that block back; the heap stays well formed and the other live blocks stand |
| Freeing.FreedTidy | MsgVBHeap.cpp:4089-4098 | after such a free two adjacent free blocks remain only if the lower one is too small for a tag |
| Tally.Conservation | MsgVBHeap.cpp:2355-2361 | the key block, the free bytes and the allocated bytes make up the arena, and the free entries are the blocks on the list |
| Tally.BudgetCovers | MsgVBHeap.cpp:919-926 | the bound on blocks exceeds the length of the free list, even by the entry a growth adds |
| Tally.SumAbsorb | MsgVBHeap.cpp:2652-2668 | merging keeps both byte counts and the allocated entries and drops one free entry |
| Tally.SumTake | MsgVBHeap.cpp:2775-2805 | splitting or adopting moves exactly the bytes of the granted block from free to allocated |
| Tally.SumGrow | MsgVBHeap.cpp:2355-2358 | growth adds its bytes and one entry to the free figures |
| Tally.SumRelease | MsgVBHeap.cpp:4080-4088 | releasing moves exactly the block's bytes and one entry from allocated to free |
| Mirror.ControlStep | MsgVBHeap.cpp:160-193 | rewriting the control fields of one free block leaves live bytes, other fields and tags as they were |
| Mirror.FitsField | MsgVBHeap.cpp:160-193 | every address and size of a heap below its ceiling fits its field, so no store is refused or cut |
| Layout.FormatNumbers | MsgVBHeap.cpp:979-1047 | header, minimum block, tag, first offset, ceilings and flag bytes in numbers, for each width |
| Mirror.Hooked | MsgVBHeap.cpp:139-158 | the link fields of a free block name its neighbours on the list, 0 at the ends |
| Mirror.ForgetInList | MsgVBHeap.cpp:2410-2432 | the addresses in the key block move to the list's new ends when a block leaves it |
| MirrorOps.MergedMirrors | MsgVBHeap.cpp:2652-2664 | after the bytes of a merge the arena mirrors the merged heap |
| MirrorOps.KindReads | MsgVBHeap.cpp:2589-2605 | flags tell a free block from a live one and agree in addressing mode |
| MirrorTake.SplitMirrors | MsgVBHeap.cpp:2786-2827 | after the bytes of a split the arena mirrors the split heap |
| MirrorLive.RetypeMirrors | MsgVBHeap.cpp:4840-4840 | rewriting the header of one live block leaves every other block, link and tag as it was |
| MirrorGrow.GrowMirrors | MsgVBHeap.cpp:2364-2386 | after the bytes of a growth the longer arena mirrors the grown heap and every live byte is where it was |
| MirrorWalk.ReachedNext | MsgVBHeap.cpp:4754-4786 | following the next field after a collation leads to the next entry of the list that is still free |
| MirrorWalk.HeldOn | MsgVBHeap.cpp:4790-4798 | a chosen block that a later collation swallows keeps a cleared header in dead space |
| MirrorWalk.GraveReads | MsgVBHeap.cpp:4811-4819 | such a header fails the first test of the re-check |
| MirrorWalk.ConsiderHeld | MsgVBHeap.cpp:4772-4785 | a block that may still be bettered is longer than a tag |
| MirrorFree.LooksIsFree | MsgVBHeap.cpp:1096-1106 | at a block start the five header tests of the look back hold exactly for a free block of that size |
| MirrorFree.TagAnswers | MsgVBHeap.cpp:1019-1026 | for any tag bytes the look back answers the free block that ends there or nothing, and misses no tagged one, if and only if the tag leads to no imitation of a header where there is no block |
| MirrorFree.TaggedFound | MsgVBHeap.cpp:1073-1107 | a free block that carries its tag is found, and no imitation is |
| MirrorFree.AstrayIsDecoy | MsgVBHeap.cpp:1073-1107 | an imitation is told by walking from the first block by the sizes read |
| MirrorFree.DecoyPlace | MsgVBHeap.cpp:1096-1106 | what imitates a header has the flag byte of a free block, and lies inside a block below or in front of all blocks |
| MirrorFree.NoImitation | MsgVBHeap.cpp:1019-1026 | if that byte occurs only where blocks start, no look back is led astray |
| MirrorFree.GraveImitatesNothing | MsgVBHeap.cpp:2664-2664 | a header that merging cleared and nothing covers imitates none |
| MirrorMerge.AbsorbSound | MsgVBHeap.cpp:2652-2667 | the bytes of one merge are those of the heap with the two blocks merged, whatever the tags were |
| MirrorMerge.CollatedRoams | MsgVBHeap.cpp:2573-2671 | a collation writes nothing but fields and tags of blocks that were free |
| MirrorStray.NoOtherSum | MsgVBHeap.cpp:2654-2663 | adding a size to the field behind one address adds it to no other field, wherever the two overlap |
| MirrorStray.StrayMerge | MsgVBHeap.cpp:2573-2671 | a merge that starts where no block does writes the one field, clears the flags of the block freed, and writes at most a tag |
| MirrorStray.NoMergeEmerges | MsgVBHeap.cpp:2573-2671 | such a merge leaves no heap with the same live blocks in which free ones were merged |
| MirrorStray.NoHeapEmerges | MsgVBHeap.cpp:2573-2671 | and no heap at all if it overwrote no header |
| MirrorSight.SightExact | MsgVBHeap.cpp:4089-4098 | what the look back answers, and whether it is led astray, is foretold before the call from the arena and the free list |
| MirrorSight.SightTagged | MsgVBHeap.cpp:4089-4098 | with a tagged free block in front of the block freed, the look back answers that one |
| MirrorSight.SightBlank | MsgVBHeap.cpp:1083-1087 | with a zero byte, in no link field, where the magic in front of the block freed would begin, the look back answers nothing |
| MirrorSight.AstrayRuins | MsgVBHeap.cpp:4052-4106 | a free led astray leaves no heap with the block given back in which free blocks were only merged, and none at all if it overwrote no header |
| MirrorFree.StoreMirrors | MsgVBHeap.cpp:1010-1017 | a client that writes only payload of a live block leaves every header, link and tag alone |
| Arena.BlockHeap.constructor | MsgVBHeap.cpp:3478-3509 | some heap is described by the new arena, key block and handle exactly when the size is a multiple of 8 and 8 below the ceiling; then it is one free block |
| Arena.CreateBSTRio | MsgVBHeap.cpp:3459-3509 | with room for the key block and one block, creation is refused exactly for 8-bit addressing, a size above the ceiling, or a ceiling past the width |
| Arena.BlockHeap.Isolate | MsgVBHeap.cpp:2398-2476 | the block leaves the list at both ends, in its neighbours and in the key block; nothing live changes |
| MirrorOps.StampSound | MsgVBHeap.cpp:1052-1068 | what the tagging of a free block writes leaves the arena mirroring the heap with that block tagged, if there is room; every live byte is kept and nothing changes but where the tag goes |
| Arena.BlockHeap.Collate | MsgVBHeap.cpp:2573-2671 | from a free block the bytes become those of the collated heap, live bytes are kept, below the block only link fields change, and swallowed headers read as no block; from a place that only reads as one, the bytes become what one merge writes there |
| Arena.BlockHeap.SplitAlloc | MsgVBHeap.cpp:2752-2835 | the bytes become those of the heap with the block taken; the size handed over is answered |
| Arena.BlockHeap.CapGrowth | MsgVBHeap.cpp:1241-1257 | growth is refused exactly when the need does not fit below the ceiling, and otherwise is the wish cut to the room |
| Arena.BlockHeap.Resize | MsgVBHeap.cpp:2332-2395 | the arena grows by a fifth or the need, within the ceiling, or is left untouched |
| Arena.BlockHeap.FindBest | MsgVBHeap.cpp:4741-4786 | the loop over bytes performs the pass, and what it chose is free or reads as no block |
| Arena.BlockHeap.Survives | MsgVBHeap.cpp:4811-4819 | the re-check passes exactly for a block that is still free and large enough |
| Arena.BlockHeap.AllocBSTRio | MsgVBHeap.cpp:4694-4891 | the retries and growths end and arrive where the modelled allocation does, with every live byte kept |
| Arena.BlockHeap.Alloc | MsgVBHeap.cpp:4943-4998 | allocation with rounding, ceiling and accounting performs the client step and keeps every live byte at its offset |
| Arena.BlockHeap.Link | MsgDesc.cpp:877-877 | linking changes one flag of one block |
| Arena.BlockHeap.WouldStray | MsgVBHeap.cpp:4052-4106 | a caller can tell from the arena and the key block, before the call, whether a free will be led astray |
| Arena.BlockHeap.PrevFree | MsgVBHeap.cpp:1074-1107 | the early returns answer exactly what the tag and the bytes it leads to say |
| Arena.BlockHeap.FreeBSTRio | MsgVBHeap.cpp:4052-4106 | release, merge forwards, look back and merge backwards, with every other live byte kept; afterwards some heap with the block given back and free blocks only merged is described if and only if the look back was not foretold to be led astray, from a place that is `Steady` |
| Arena.BlockHeap.ValidAlloc | MsgVBHeap.cpp:1957-1977 | a block is fit to be freed exactly when it is live and linked; an unlinked one is marked linked in passing |
| Arena.BlockHeap.Free | MsgVBHeap.cpp:4190-4224 | freeing performs the client step, refused or not, and counts the free for the inodes; the same condition decides whether a heap with the block given back and free blocks only merged is described |
| Arena.BlockHeap.InodeStamp | MsgVBHeap.cpp:4253-4269 | the stamp is minted once, never 0, by skipping multiples of 65536 |
| Arena.BlockHeap.FieldInode | Msgcore_c.cpp:1253-1267 | an inode packs stamp, frees modulo 65536 and address; none for addresses past 32 bits |
| Arena.BlockHeap.Resolve | Msgcore_c.cpp:1270-1287 | for every inode a nonzero answer is its address, and there is one if and only if the field is there, stamp and frees match, and the bytes there read as an allocated, linked and typed block of the mode inside the arena; at a block, if and only if it is live and linked |
| Arena.BlockHeap.ScrubFoots | MsgVBHeap.cpp:1125-1162 | the pass ends, takes every tag out or puts every one back, and changes no byte but where tags of free blocks go |
| Arena.BlockHeap.Image | P2PmsgMgr.cpp:427-435 | the image is the arena with those places zeroed and still mirrors the heap; afterwards the heap is as it was, every free block with room tagged |
| Saving.SweptAll | MsgVBHeap.cpp:1142-1161 | no block is tagged after the first pass, every free block with room after the second |
| Saving.RetaggedKeeps | MsgVBHeap.cpp:1109-1124 | saving keeps the heap well formed and coalesced and its key block exact |
| Saving.FeetOnlyLive | MsgVBHeap.cpp:1111-1113 | where tags go there is nothing live, no header and no link |
| Saving.SameImage | MsgVBHeap.cpp:1113-1121 | arenas that differ only in the tags of free blocks are saved alike |
| Saving.ImageUntagged | MsgVBHeap.cpp:1110-1110 | behind no free block does the image read as a tag, so the look back answers nothing there |
| Saving.StaleTags | MsgVBHeap.cpp:1151-1158 | an end reads as a tag in the image if and only if it did before and the first four of its bytes lie where no free block has its tag; one that lies clear of all of them is saved as it stands |
| Inodes.MatchesLater | Msgcore_c.cpp:1270-1283 | an inode matches later exactly when the stamp is the same and the frees since are a multiple of 65536 |
| Inodes.PackNumbers | Msgcore_c.cpp:1261-1266 | address in the low 32 bits of an inode, then 16 bits of frees and 16 of stamp |
| Founding.FreshKeeps | MsgVBHeap.cpp:5115-5140 | a new heap is well formed, coalesced and its key block exact |
| Founding.UnsoundKeys | MsgVBHeap.cpp:3479-3497 | a key block that counts the rounded arena describes no heap of the unrounded size |
| Runs.NextSound | MsgVBHeap.cpp:4942-4998 | every client action but a free led astray keeps the heap well formed, coalesced and accounted for, and never shrinks the arena |
| Runs.RunSound | MsgVBHeap.cpp:3458-5140 | all of that holds in every state of every run from creation, below the ceiling the fields can address, as long as no free was led astray |
| Runs.RunAccounts | MsgVBHeap.cpp:4190-4208 | so long, the figures of the key block are exact in every state; the bytes handed out are exact if and only if no bytes were lost to refused frees |
| Runs.RunCoalesced | MsgVBHeap.cpp:992-1028 | so long, two adjacent free blocks exist only if the lower one is too small for a tag |
| Runs.CeilingHonest | MsgVBHeap.cpp:4955-4968 | the early check against the ceiling refuses nothing that could be served |
| Runs.ReplyExact | MsgVBHeap.cpp:4942-4998 | a request is refused only for the ceiling or for want of room, and, with no bytes lost, exactly when neither a run of free blocks nor growth can serve it |
| Runs.RunFree | MsgVBHeap.cpp:4052-4106 | after a free in a run some heap with the block given back and free blocks only merged is described if and only if this free was not led astray either, as could be told before it, from a place that is `Steady`; where it was, and overwrote no header, no heap at all is |
| Runs.RoundedCovers | MsgVBHeap.cpp:4950-4952 | the rounded size covers payload and header exactly when their sum does not wrap |
| Runs.RoundedNumbers | MsgVBHeap.cpp:4950-4952 | payload and header, at least a minimum block |
| Runs.CeilingExact | MsgVBHeap.cpp:4955-4968 | with no bytes lost a request is refused for the ceiling if and only if it and the bytes in live blocks come to more |
| Runs.WrappedGrant | MsgVBHeap.cpp:4950-4952 | a request that wraps and can be served is granted a block smaller than the request |
| Runs.WrappedOnCreation | MsgVBHeap.cpp:4950-4952 | which happens on every new heap to a request of 2^64 - 1 bytes |
| Runs.AllocApart | MsgVBHeap.cpp:4942-4998 | the granted block is typed, unlinked and apart from every other live block, and those stay |
| Runs.RunLasts | MsgVBHeap.cpp:2331-2395 | as long as no free was led astray, a live block keeps offset, size and type until it is given back, whatever happens meanwhile |
| Runs.RunCounts | MsgVBHeap.cpp:4211-4220 | so long, once stamped, a heap counts every return of every block |
| Runs.RunInode | Msgcore_c.cpp:1253-1287 | so long, an inode matches exactly when its block was given back a multiple of 65536 times since, and while it was not the block is still live and linked |
| Runs.RunRoot | MsgVBHeap.cpp:4845-4846 | so long, if the first allocation is never freed the key block goes on naming it and it stays live |
| StrayRun.ClientAstray | MsgVBHeap.cpp:1019-1026 | in every run of 23 given allocations, links and frees on a heap of 16384 bytes the last free is led astray, and then no heap is described |
| StrayRun.Rerun | MsgVBHeap.cpp:1019-1026 | there is such a run |
| StrayRun.StaleTagSaved | MsgVBHeap.cpp:1110-1110 | an image taken in that run after its twelfth action holds a tag behind which there is no block |
| LostRun.UnlinkedFreeDrifts | MsgVBHeap.cpp:4190-4208 | freeing a block that is not linked leaves an exact count of bytes handed out short by its size |
| LostRun.Drift | MsgVBHeap.cpp:4190-4208 | an allocation and a free get there |
| Gate.ValidFree | MsgVBHeap.cpp:1887-1937 | a free block passes exactly when it and its list neighbours read as free and point at each other |
| Gate.AssertVBlocks | MsgVBHeap.cpp:2066-2164 | on any bytes the walk ends, reads only inside the arena, and accepts exactly the good chains whose totals are the key block's |
| Gate.AcceptMeans | MsgVBHeap.cpp:2066-2164 | an accepted arena is cut without gaps into good blocks up to its end, or past it by at most the last one, and the key block's figures are theirs |
| GateMeaning.GoodIsSound | MsgVBHeap.cpp:1887-1977 | said of the bytes: a block passes exactly when its flags read allocated, linked and of the mode, and, if it is free, each of its links leads to a free record inside the arena that leads back |
| GateMeaning.AcceptedExactly | MsgVBHeap.cpp:2066-2164 | the gate accepts exactly the arenas that can be cut, from byte 48 on, into such blocks, with the key block counting just them and fewer than 200,000,000 free bytes |
| GateMeaning.CutSound | MsgVBHeap.cpp:2099-2131 | each block of such a cut passes, and the next starts where it ends |
| Gate.BuiltAccepted | MsgVBHeap.cpp:2066-2164 | a heap built here is accepted exactly when all live blocks are linked and its free bytes are under 200,000,000 |
| Wildcard.ReachMonotone | Msgcore.cpp:127-135 | a star-free stretch that starts later ends no earlier, although `#` takes a whole run |
| Wildcard.LastStarSuffices | Msgcore.cpp:119-150 | at the next star or the end of the text the chances of the last star are worth nothing more |
| Wildcard.MatchesInPieces | Msgcore.cpp:106-155 | a text matches exactly when it can be cut into one piece a pattern character: any stretch for a star, one character but a dot for `?`, a whole run of digits for `#`, itself otherwise |
| Wildcard.Match | Msgcore.cpp:106-155 | the loop ends and answers whether the text can be cut into one piece for each character of the pattern, as the recursive meaning says too |
| Collection.LinkedInSpells | MsgDesc.cpp:858-967 | linking in between two neighbours spells the sequence with the item inserted |
| Collection.LinkedOutSpells | MsgDesc.cpp:1241-1280 | taking an item out spells the sequence without it |
| Collection.SwapSpells | MsgDesc.cpp:1342-1396 | exchanging two items, adjacent in either order, one apart or far, spells the sequence with the two exchanged |
| Collection.Desc.LinkinItem | MsgDesc.cpp:858-967 | sequence insertion with exact ends and count; items outside the collection are untouched |
| Collection.Desc.LinkinAttr | MsgAttr.cpp:823-952 | the checked form refuses exactly when an address does not fit, and then the collection is as it was |
| Collection.Desc.UnLinkItem | MsgDesc.cpp:1241-1280 | sequence removal with exact ends and count, the item left without links |
| Collection.Desc.Swap | MsgDesc.cpp:1308-1396 | exactly the two positions are exchanged and the ends follow |
| Collection.Cursor.Seek | MsgCurs.cpp:446-505 | an index is reached over at most half the items; past the end none is |
| Collection.Cursor.Goto | MsgCurs.cpp:437-539 | the cursor lands on the item of that index, or at the count with nothing current |
| Collection.Desc.Narrow | MsgDesc.cpp:1133-1154 | the loop arrives where the recursive search does; its arm for an exact match is never taken |
| Collection.Desc.SortinItem | MsgDesc.cpp:1098-1197 | for any name and any collection, sequence insertion at the place the search finds, which among names that are less, alike and more is the one counting gives; if it finds none, and only then, what is left spells no collection |
| Naming.AlikeExact | P2Pmsg.cpp:2179-2195 | two names compare alike exactly when one begins the other |
| Naming.LessExact | P2Pmsg.cpp:2179-2195 | one name is less exactly when it has the lower character at the first place where they differ |
| NamePlaces.PlaceExactly | MsgDesc.cpp:1098-1197 | where names less, alike and more follow each other, the place by counting alone: behind all alike at the end, in front of them if the first is one the search looks at, behind a single one left over with the next, or nowhere |
| NamePlaces.OrderParts | MsgDesc.cpp:1098-1197 | names in order do follow each other so, if none begins another or none is a shorter beginning of the new one |
| NamePlaces.PlaceNeighbours | MsgDesc.cpp:1160-1192 | in any collection in order, nothing more stands in front of the place and nothing less behind it, and inside not two names both alike |
| NamePlaces.BetweenTwo | MsgDesc.cpp:1160-1176 | of two names, the lower alike and the upper more, the new one goes between |
| NamePlaces.ExtendedGoesBehind | MsgDesc.cpp:1160-1176 | "a", "b" and then "ab" are filed "a", "ab", "b" |
| Naming.PlaceKeeps | MsgDesc.cpp:1098-1197 | a collection in order stays in order if and only if the name, at the place found, overtakes none because of one that begins it |
| Naming.NowhereExact | MsgDesc.cpp:1098-1197 | in a collection in order a name finds no place if and only if it lies within the ends and begins the upper name the search stops at, or is begun by it and not less than the lower one |
| Naming.NowhereAmongUnlike | MsgDesc.cpp:1098-1197 | where no name there begins another, exactly when it lies within the ends and it and that name begin one the other |
| Naming.UnlikePlaced | MsgDesc.cpp:1098-1197 | a name that none there begins or is begun by is placed above all that are less and below all that are more |
| Naming.FiledSorts | MsgDesc.cpp:1098-1197 | names none of which begins another are all filed and sorted, in whatever order they come |
| Naming.FiledNowhere | MsgDesc.cpp:1178-1197 | four names, the last of which begins the first, after which the collection is lost |
| Naming.FiledDisorder | MsgDesc.cpp:1124-1131 | four names, the last of which extends the third, after which the collection is out of order |
| TreeWalk.OrderCovers | MsgCurs.cpp:800-844 | the order of visits lists exactly the items reachable through fields |
| TreeWalk.OrderSize | MsgCurs.cpp:800-844 | and lists as many entries as there are such items |
| TreeWalk.OrderByPaths | MsgCurs.cpp:800-952 | the k-th item of the order is what the k-th path leads to, paths in order, what holds something before what it holds, and no path missing |
| TreeWalk.Recurs.Push | MsgCurs.cpp:818-830 | pushing puts the items of the current field ahead of all that was to come |
| TreeWalk.Recurs.Next | MsgCurs.cpp:800-813 | stepping on leaves exhausted levels and makes the next item current, or ends |
| TreeWalk.Drive | MsgCurs.cpp:800-952 | visit, push into fields and step on sees every item once in preorder and comes to an end |
| Vector.Vect.GetSlot | MsgVect.cpp:708-720 | a slot of the flat sequence, 0 past the last block |
| Vector.SlotHome | MsgVect.cpp:708-720 | slot n is slot n % 32 of the head block or of the continuation block n / 32 further on |
| Vector.Vect.SetSlot | MsgVect.cpp:727-748 | exactly that slot changes; a block is hung behind the chain only if the index needs one |
| Vector.Vect.InsertAt | MsgVect.cpp:751-771 | sequence insertion, out of range meaning the end, across any number of blocks; slots past the elements are as they were, those of a new block 0 |
| Vector.Vect.Delete | MsgVect.cpp:519-538 | sequence removal, the last slot left 0 and those past it as they were; nothing is allocated and exactly the element and what it owns is freed |
| Vector.BundleApart | MsgVect.cpp:505-516 | what one element owns is freed with no other |
| Vector.Vect.Truncate | MsgVect.cpp:540-566 | every element and every continuation block is freed once and nothing else is |
| DeepFree.Ledger.FreeElemDeep | MsgVect.cpp:505-516 | an element with all it owns, nested to any depth, is freed block by block, each exactly once and each allocated till then, what it owns first |
| DeepFree.FreedLast | MsgVect.cpp:505-566 | an element goes last, its continuation blocks right before it, its elements before those |
| DeepFree.FreedInOrder | MsgVect.cpp:549-551 | the elements go in the order of their slots |
| DeepFree.Ledger.Truncate | MsgVect.cpp:540-566 | emptying frees the elements with all they own, then the continuation blocks, and nothing else |
| Stacks.PopRestores | MsgStck.cpp:225-393 | a pop restores content and stack of its push, whatever edits and balanced pushes and pops come between |
| Stacks.Snapshot | MsgStck.cpp:183-210 | a push copies every part of the item into the empty block |
| Stacks.Restore | MsgStck.cpp:183-210 | a pop brings every part back, also taking away collections the snapshot lacks |
| Stacks.Stack.Push | MsgStck.cpp:225-318 | a push leaves the item as it is, links the new snapshot of it at the head and records the owner |
| Stacks.Stack.Pop | MsgStck.cpp:321-393 | a pop makes the newest snapshot the item, leaves the others, and frees only that snapshot, though dropping an item drops its own stack |
| Stacks.Stack.DropStack | MsgStck.cpp:576-618 | every snapshot is cut loose and freed once, and the loop ends |
| Stacks.Stack.Drop | MsgStck.cpp:576-618 | the whole stack is freed and the item stays as it is |
| Text.EncodedIsRead | MsgFieldRef.hpp:184-219 | well-formed UTF-8 is read as the characters it encodes |
| Text.ReadIsEncoded | MsgFieldRef.hpp:190-208 | a character other than U+FFFD is read only where exactly its own encoding stands: no overlong form, no surrogate, nothing cut short |
| Text.NextConsumes | MsgFieldRef.hpp:198-203 | a malformed sequence takes only continuation bytes with it, so the character after it is not lost |
| Text.NextTakes | MsgFieldRef.hpp:184-208 | a sequence takes its lead byte and just those of the continuation bytes it announces that are there; cut short, or without a lead, it is read as U+FFFD |
| Text.Utf8Written | MsgFieldRef.hpp:184-219 | one character of each length, as RFC 3629 has it |
| Text.EncodedThenZero | MsgFieldRef.hpp:184-219 | reading stops at the first 0 |
| Text.Utf8ToWide | MsgFieldRef.hpp:184-219 | any bytes are read as characters, never a surrogate, in one or two wide characters each |
| Text.WideRoundTrip | MsgFieldRef.hpp:240-290 | 32-bit text comes back from its units exactly when it has no number past the last code point and no high surrogate before a low one |
| Text.TextToUnits | MsgFieldRef.hpp:230-266 | the buffer holds the units low byte first and one terminator, with one more for each number past the last code point |
| Text.PairNumbers | MsgFieldRef.hpp:250-258 | the high unit of a pair stands for 1024 characters in a row, the low one for the place among them |
| Text.UnitsNumbers | MsgFieldRef.hpp:248-262 | one unit, two past 16 bits, U+FFFD past the last code point |
| Text.LowByteFirst | MsgFieldRef.hpp:240-262 | a unit has its low byte first |
| Text.UnitsToText | MsgFieldRef.hpp:269-290 | units are read with surrogate pairs merged and lone ones kept |
| Text.TextComesBack | MsgFieldRef.hpp:184-290 | text made from any bytes is written with one terminator and comes back unchanged |

## Left out

- The IOMAGE arm: the same algorithm over accessor functions.  The SYS heap, reference
  counts, triggers, the files of saving and loading, defragmentation, paging, and the
  repairs validators make outside the gate.
- The key block is kept as a record of values beside the arena; its 48 bytes at the
  front of the arena are reserved and not laid out.  The handle's own `nFreeEntries`
  cache is not modelled.
- The arms of collation that report address corruption or a neighbour of no size, and
  the refusal to collate a block that is not free: unreachable in a well-formed heap,
  and proved so where they stand.
- Freeing an address that is not the start of a block, and allocating with type 0.
- Debug assertions that are compiled out are not modelled as refusals.
- Arena.BlockHeap.Collate: where the place that only reads as a block lies over the prev
  field of the next block on the list (`MirrorStray.Shifts`), taking the head off the
  list rewrites the very header the merge reads, and what the code then goes on to do
  is not followed.
- Arena.BlockHeap.FreeBSTRio: that a free led astray leaves no heap with the block given
  back and free blocks only merged is stated for the other places, those that are `MirrorSight.Steady`, which a caller
  can check as well; that a free not led astray does leave one is stated for all.
- Arena.BlockHeap.Free: likewise.
- Runs.RunFree: likewise.
- MirrorSight.AstrayRuins: likewise, its premise being what such a free leaves.
- Arena.BlockHeap.PrevFree: the key block's 48 bytes read as the arena holds them here,
  so a tag that leads in front of the first block is answered by other bytes.
- Arena.CreateBSTRio: a creation size too small for the key block and one block, which the
  code only asserts against, compiled out, and then writes past the arena.
- Arena.BlockHeap.Resolve: whether the block holds a field is a parameter, because what
  fields look like is not part of this model.
- Gate.AssertVBlocks: the entry counters are unbounded where the code's are 32-bit, so
  an arena of more than 2^31 blocks is not told apart; list and vect of handle types
  other than this one are not modelled.
- Collection.Desc.LinkinItem: the 8, 16, 32 and 64-bit arms are one; addresses of a heap
  below its ceiling fit every field (`Runs.RunSound`), so the unchecked casts of
  `MsgDesc.cpp` lose nothing.
- Collection.Desc.SortinItem: names are characters already folded to one case; characters
  stored in two units, and a terminator inside a name, are not modelled.
- TreeWalk.Recurs.Push: the chain of cursor objects, each owning the next, is kept as a
  sequence of cursors; the tree does not change while it is walked.
- Vector.Vect.FreeElemDeep: counts what an element owns as the list of blocks freed before
  it; `DeepFree` is about how those are found, for any nesting, with the items of a
  nested list as slots too.
- Vector.Vect.InsertAt: the addresses the heap answers for new blocks are parameters.
- Stacks.Stack.Push: the parts of an item are values.
- Stacks.Stack.Pop: blocks that attributes or descendants own are not counted among those
  it frees.
- Stacks.Stack.DropStack: such blocks are not counted here either.
- Stacks.Stack.Drop: nor are they here.
- Text.Utf8ToWide: a null pointer, and digits other than 0 to 9 in `Wildcard.Match`.
- Deleting through the cursor, wildcard deletes, sorted insertion of vects, and the item,
  name and data layouts.
