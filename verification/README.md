# A verified model of the Yrs document core

Yrs is a Rust implementation of the Yjs CRDT: replicas edit a shared document without coordination, send each
other blocks of insertions and sets of deletions, and end with the same document. This project models the part
of it that this rests on, and proves what it is for.

- **The list of units** (`ids`, `yata`, `agreement`, `convergence`, `origin_tree`, `interleaving`). A unit is one
  element with its id and the ids of the two neighbours its author saw. `Yata.Scan` is the conflict scan;
  `Yata.Inv` says that no origin edges cross and how siblings are ordered, which makes the list a walk through
  the tree of origins. `Convergence.World` assumes of every insertion only how it came about: its author put
  it between two neighbours of a list that the author had built by integrating what it had received, with a
  clock that is new. Nothing is assumed of the order of delivery but that both origins of an insertion come first.
- **Blocks** (`spans`, `block_integration`). A block stands for a run of units. The scan over blocks, the cuts
  before it and the leaving out of what is known are proved to do to the units what is done for each unit alone.
- **Objects** (`block`, `integration`, `replica`, `outcome`, `delivery`, `commit`, `compaction`). `Item`, `Branch` and
  `Transaction` are classes with the fields of the original, changed in place. `Branch.Valid` says that `left` and
  `right` undo each other, that `start` and the entries of the map lead to the ends of the chains, and that the chains
  hold exactly the blocks of the branch. `Transaction.Holds` adds that these are exactly the stored blocks with that
  parent, and that no id is in two blocks. `Branch.Counted` ties the two lengths to the live blocks. The methods are
  proved against the functions of the layers above, so that `Replica.Receive` ends in the list of `Convergence.Run`.
  `Squash.ShownAll` is what a chain holds, unit by unit: id and origins, deleted or not, and the element.
- **Cutting and joining** (`text`, `squash`). Strings are sequences of Unicode scalar values, measured in UTF-16
  code units (section 2.1 of RFC 2781) and in UTF-8 bytes (section 3 of RFC 3629).
- **The cursor** (`cursor`). `BlockIter` over blocks that may be deleted or not countable, in units of the
  document's offset kind. Moving needs no condition on the contents. Deleting and inserting are stated on
  elements, for every content that is as long in the kind as in UTF-16 (`Squash.Measured`: always, but for text
  that is measured in bytes and has characters from U+0080 on), and for cuts that do not fall inside a surrogate pair
  (`Cursor.Seam`). Reading a sequence is stated where every character is one code unit (`Squash.Plain`).
- **Garbage collection** (`gc`). The recursive marking of nested collections, the sweep, and the keep flags. The
  collector remembers in ghost fields what was there at first, so that the contract of a whole collection says
  exactly which items lose their content and which cells become ranges. `Commit` and `Outcome.CollectShown` carry over
  it what the branches hold and show.
- **The codec of `Any`** (`floats`, `float_values`, `bytes`, `any`, `codec`, `numbers`, `framing`). Floats are bit
  patterns of IEEE 754-2019; conversions round as its section 4.3.1 says, ties to even. `FloatValues` says which real
  number a pattern stands for, apart from how the conversions work.

The model has no clocks, network or random numbers. What the original takes from there (client ids, the order
of delivery, the order in which a hash map is walked) is a parameter or an arbitrary choice. Clocks, lengths and
clients are unbounded integers, but for the places where the width matters: `Integration.GcRange` wraps at 32
bits, and the codec has 64-bit integers that saturate. Where a content is cut, the length is always in UTF-16, as
in the original, whatever the offset kind of the document. `Branch.lost` is a ghost field: what the content
length falls short of once such cuts made a text longer in bytes.

## Findings

Properties that one would expect and that the code does not have. Each is stated as it is, with the exact
condition under which it does hold, and `findings.dfy` has a concrete input.

- **A cut inside a surrogate pair makes a branch too short in bytes** (`yrs/src/block.rs:640-683`, `:1696-1736`).
  Both halves become U+FFFD, so 4 bytes become 6, but `content_len` stays. `Integration.Transaction.SplitCounted`:
  the length goes wrong by 2 exactly if the block is live, in the sequence, counted in bytes, and the cut is
  inside a pair. Input: `Findings.CutFace`. For the same reason `Squash.SquashUndoesSplice` gives back the block
  exactly if the cut is not inside a pair.
- **A block without a branch is trimmed twice** (`yrs/src/block.rs:1002-1004`, `:1028`, `:1112-1120`). The range that
  is recorded in its place is the right one exactly if the offset is 0: `Integration.GcFallback`. Inputs:
  `Findings.RangeTooShort`, and `Findings.RangeTooLong`, where the length goes below zero and wraps around (in a
  build with overflow checks, it stops the program).
- **`backward` does not take back the mark that the end was reached** (`yrs/src/block_iter.rs:136-148`). The index is
  right, but the cursor still stands at the end: `Cursor.BlockIter.Backward` has the exact condition. Input:
  `Findings.BackFromEnd`.
- **`try_squash` alone leaves a key leading to a block that is gone** (`yrs/src/block.rs:689-714`).
  `Squash.TrySquash`: the branch stays well-formed exactly if the block that goes is in no key's chain or not the
  last one there. Input: `Findings.JoinEntries`. Both callers in the block store mend it
  (`yrs/src/block_store.rs:197-207`, `:231-241`): with that step, `Squash.SquashLeft` always keeps the branch
  well-formed.
- **`insert_contents` leaves the cursor one block too far** (`yrs/src/block_iter.rs:359-364`). The content goes to the
  right place, but the cursor then stands where its index says exactly if nothing visible was passed over:
  before the call it stood before a block that does not count and is not the last one, and the new block does
  not count either. `Cursor.BlockIter.InsertContents` has this condition. It fails after every insertion of something
  visible; after an insertion at the end, the cursor is left at the block that was the last one before; after one before
  the last block, it is at no block. Input: `Findings.AppendOne`.
- **`keep(false)` can leave a kept item in something that is not kept** (`yrs/src/block.rs:617-631`, as called by
  `yrs/src/undo.rs:229` and `:434`). If what holds kept items was kept before, it is so after exactly if the item
  was not kept, or no kept item beside those that hold it is held by one of them: `Gc.Keep`. Input:
  `Findings.KeepOneOfTwo`, a collection with two kept items.
- **A range to collect that starts inside a block is not walked to its end** (`yrs/src/gc.rs:38-58`, as called with ranges of
  the user's own by `yrs/src/transaction.rs:1371`). The walk takes the block in which the range starts to begin there, so it
  is too far on by the difference. `Gc.Reaches` is exactly what it reaches, `Gc.CollectScope` collects exactly
  that, and `Gc.WholeRange` says that a range which starts where a block starts reaches exactly the blocks that
  it contains. Input: `Findings.RangeInside`.
- **`as_i64` is not lossless at 2^63** (`yrs/src/any.rs:302-315`). The float 2^63, which is no 64-bit integer, is taken for
  `i64::MAX`: the cast saturates, and the way back rounds up again. `Numbers.AsI64Exact`: a float is taken for an integer
  exactly if it is that number, but for this one. Input: `Findings.OneLess`. The equality of numbers has the same exception
  (`Numbers.SameNumberIs`).

## Model

| member | source | states |
|---|---|---|
| Yata.IntegrateKeepsInv | yrs/src/block.rs:920-983 | integrating a unit whose author saw its two origins keeps: ids distinct, every unit strictly between its origins, origin edges never crossing, siblings in order; the unit goes at or after its left origin and before its right origin |
| Agreement.OnlyPlace | yrs/src/block.rs:920-983 | the place that the scan finds is the only one at which the invariant is kept |
| Agreement.OrderKept | yrs/src/block.rs:920-983 | any two lists that keep the invariant and agree on what their units say hold their common units in the same order |
| Convergence.RunIsGood | yrs/src/block.rs:920-983 | after every deliverable run the list keeps the invariant and holds exactly the insertions of the run |
| Convergence.OneOrder | yrs/src/block.rs:920-983 | two replicas order any two insertions that both hold alike, at any moment of delivery |
| Convergence.Converge | yrs/src/block.rs:920-983 | two replicas that have integrated the same insertions, in any two deliverable orders, have equal lists |
| OriginTree.Contiguous | yrs/src/block.rs:940-982 | the descendants of a unit follow it without a gap: the list is a walk through the tree of origins |
| OriginTree.LastWins | yrs/src/block.rs:954-963 | of units with the same origin and no right origin, the one that the end of the list belongs to has the largest client |
| Interleaving.RunsDoNotInterleave | yrs/src/block.rs:947-981 | clients that type forward into one gap, under every deliverable interleaving: the gap holds what has come of each client's run in one piece, in ascending order of client, and all around it is as it was |
| Spans.BlockScanRefines | yrs/src/block.rs:941-982 | the scan that steps from block to block ends at the last unit of the block at which the scan over units ends |
| BlockIntegration.BlockIsUnits | yrs/src/block.rs:920-983 | integrating a block is integrating its units one after the other, over a list that is itself in blocks |
| BlockIntegration.CutKeepsUnits | yrs/src/block.rs:640-683 | cutting a block keeps all units and their origins |
| BlockIntegration.ReceiveBlock | yrs/src/block.rs:920-983 | for the list of units alone (links, entries and lengths are in `Integration`): cutting at the origins and then integrating the block gives the list of the run with its units added |
| BlockIntegration.ReceiveTail | yrs/src/block.rs:835-849 | the same when the first `n` units are known and left out: exactly the others are added, each with the origin it would have had |
| Block.Item.CompareWith | yrs/src/block.rs:954-979 | the four outcomes of a step of the scan, with the two hash sets, are those of the step on positions |
| Block.Item.ScanFrom | yrs/src/block.rs:941-982 | the loop with its two hash sets and the moving candidate ends, and finds the place of the scan on positions |
| Block.Item.ResolveConflict | yrs/src/block.rs:920-983 | `left` becomes the block after which the new one goes |
| Block.Item.Splice | yrs/src/block.rs:640-683 | with an offset in UTF-16: the block keeps its first units, and a new block with the others, their origin, flags and content is linked after it; all links and entries stay sound; at offset 0 nothing happens |
| Block.CutLengths | yrs/src/block.rs:2080-2112 | both parts of a content have exactly the lengths asked for, and count as the content did |
| Block.CutKeepsLength | yrs/src/block.rs:2080-2112 | a cut keeps the length in the units of the offset kind, or adds 2 if it is inside a surrogate pair and bytes are counted |
| Block.Branch.Attach | yrs/src/block.rs:1037-1063 | linking a block in after a position of its chain keeps left and right inverse, `start` and the entries of the map right, and all other chains as they were |
| Integration.Transaction.Delete | yrs/src/transaction.rs:785-805 | a block is deleted and recorded once, and what was counted of it is taken off both lengths |
| Integration.Transaction.SplitCounted | yrs/src/block_store.rs:457-471 | a cut keeps the links, no id is in two blocks, and both lengths stay right up to what is lost: 2 more exactly for a live block of the sequence cut inside a pair and counted in bytes |
| Integration.Transaction.SplitAt | yrs/src/store.rs:302-356 | what a chain shows changes by a cut exactly if the cut is inside a surrogate pair; the same ids are deleted; of a key only one entry lives, as before |
| Integration.Transaction.BlockEnding | yrs/src/block_store.rs:429-434 | the block that ends with an id, cut if need be; None exactly if the id is not known; no unit changes, unless the cut is inside a pair |
| Integration.Transaction.BlockStarting | yrs/src/block_store.rs:419-423 | the block that starts with an id, likewise |
| Integration.Transaction.Repair | yrs/src/update.rs:441-477 | the neighbours are the blocks with the two origins, after the cuts that `Prepare` says; the branch and the key are those of a neighbour if the block names none |
| Integration.Transaction.Trim | yrs/src/block.rs:835-849 | the first units are left out, and the left origin becomes the last of them if that is known |
| Integration.Transaction.IntegrateInto | yrs/src/block.rs:1033-1107 | for a block with a branch: it is linked in at the place of the scan and stored, the entry that it replaces is deleted and no other block, both lengths stay right; it is deleted itself exactly if its content is gone, its branch was deleted or it has a key and a block to its right |
| Integration.Transaction.IntegrateEntry | yrs/src/block.rs:1043-1073 | in the chain of a key, everything but the last entry stays deleted; a new block that becomes the last entry lives unless its content is gone or the branch was deleted, and any other leaves the last entry as it was |
| Integration.Transaction.IntegrateItem | yrs/src/block.rs:998-1110 | all of the above with an offset, for a block whose branch is given or missing; without one it is recorded as a range; what the units of a sequence show is what they showed with those of the block inserted, whatever the contents; of a key only one entry lives, also among entries that were deleted and joined; whether the block is deleted, and what the last entry is then; exactly the new units are recorded as inserted, and exactly the ids that are deleted in the chain now and were not before as deleted, or those of the range in both sets |
| Integration.Transaction.IntegrateGc | yrs/src/block.rs:1112-1120 | a range of clocks without content is recorded without its known part, in both sets and after the cells of its client |
| Integration.GcRangeIs | yrs/src/block.rs:1112-1120 | of a range of which a part is known, exactly the rest is recorded |
| Integration.GcFallback | yrs/src/block.rs:1112-1120 | the range recorded for a block without a branch covers its clocks exactly if the offset is 0 |
| Replica.Receive | yrs/src/block.rs:998-1110 | on linked objects, for every offset kind and every content: the units of the branch are the list of `Convergence.Run` with the new insertions; the block gets in exactly if it names its branch or an origin; the branch stays well-formed and counted; the sets of inserted and of deleted ids grow by exactly what was inserted and deleted; in a sequence all that the other units show stays, if no origin of the block is inside a surrogate pair; of a key only one entry lives, for blocks of one write or of deleted ones, with or without an offset; a block that lands last for its key, with its content and in a branch that was not deleted, lives, and one that does not leaves the entry as it was |
| Replica.ReceiveWrites | yrs/src/block.rs:998-1110 | after any deliverable run of blocks for a key, each of them one write or several that were deleted and joined, each with some of its units known or none, and each with its branch and key or only with an origin that tells them, the chain of the key is the list of the run, and only its last entry lives: it does live, and holds what was written, unless that write came without its content or was removed (in a branch that was not deleted) |
| Replica.Survivor | yrs/src/block.rs:1043-1073 | the entry that is left after such a run ends with the last unit of the list, which was made by the largest client among those that replaced the same entry; all others are deleted, and it lives exactly if that write was neither removed nor came without its content, and then holds what was written |
| Outcome.RemoveEntry | yrs/src/branch.rs:332-341 | after the entry of a key is removed the same holds with that write among the removed ones |
| Outcome.ReceiveShown | yrs/src/block.rs:998-1110 | if every unit of a sequence holds what its author made it hold, or is deleted and has lost that, and exactly the deleted ones are marked, then that is so after a block is received that is what its author made it or came without its content, unless an origin of it or its trimmed edge is inside a surrogate pair |
| Outcome.DeleteShown | yrs/src/transaction.rs:785-805 | after a block is deleted that is so with its units among the deleted ones |
| Outcome.CollectShown | yrs/src/gc.rs:12-16 | after the collection at the end of a transaction that is so for every branch whose holder is not deleted, with the units of exactly the collected items among those that have lost what they held |
| Commit.CollectBranch | yrs/src/gc.rs:12-16 | the collection leaves such a branch all its blocks, the links, both lengths and the store right, and takes the content of exactly the deleted items in reach that are not kept |
| Delivery.ReceiveAll | yrs/src/block.rs:998-1110 | after any deliverable run of blocks for a sequence, each with some of its units known or none, the units are the list of the run, each holds what its author made it hold, or came without it, and exactly those that came without are deleted |
| Outcome.ShownUnits | yrs/src/block.rs:2080-2138 | the units that a chain shows are those of its blocks, however they are cut |
| Outcome.VisibleIsLive | yrs/src/block_iter.rs:241-296 | what a reader sees of a chain is what its live and countable units hold |
| Outcome.NamesAreLive | yrs/src/block_iter.rs:186-239 | the ids that a deletion speaks of are those of the live and countable units, in their order |
| Outcome.TypedIsAuthored | yrs/src/block_iter.rs:322-367 | a local insertion names two neighbours of the list, as `Convergence.World` assumes of every insertion |
| Outcome.TypedIsIntegrated | yrs/src/block_iter.rs:322-367 | it gives the list that integrating its units one by one gives |
| Outcome.SameOutcome | yrs/src/block.rs:920-983 | two replicas with the same insertions and deletions, in whatever order and in whatever blocks, and whatever each has collected of the deleted units, show the same units, the same of them as deleted, and the same in all that are not; a reader sees the same; if nothing was collected, they show the same in the deleted ones too |
| Outcome.SameSurvivor | yrs/src/block.rs:1043-1073 | two replicas with the same writes to a key keep the same entry, up to how entries were joined: their entries end with the same unit, both are deleted or neither is, and then hold the same |
| Text.Split16Units | yrs/src/block.rs:1696-1736 | in UTF-16 the two parts have exactly the code units before and after the offset, but that both halves of a pair that is cut become U+FFFD; they are as long as asked for |
| Text.Encode16Tells | yrs/src/block.rs:1696-1736 | different strings have different code units |
| Text.SplitStr | yrs/src/block.rs:1696-1736 | the loop does that; in bytes the parts join to the string, and it fails exactly if the offset is on no character |
| Text.BlockOffset | yrs/src/block.rs:1603-1621 | a byte offset on a character becomes the UTF-16 offset of the same character; one inside a character goes below zero, and only such a one |
| Text.FromBlockOffset | yrs/src/block.rs:1625-1641 | a UTF-16 offset on a character becomes its byte offset; one inside a pair that of its end |
| Text.OffsetRoundTrip | yrs/src/block.rs:1603-1641 | on the boundaries of characters the two undo each other |
| Squash.ElementsTell | yrs/src/block.rs:1856-1913 | contents that are not empty show the same only if they are the same: every value, text and character is told apart |
| Squash.CutShows | yrs/src/block.rs:640-683 | cutting a block keeps all that its units show exactly if the cut is not inside a surrogate pair |
| Squash.SquashShows | yrs/src/block.rs:689-714 | joining two blocks keeps all that the units of both show |
| Squash.SquashUndoesSplice | yrs/src/block.rs:640-714 | the parts of a block can be joined exactly if it is not redone or linked, and give back the block exactly if no pair was cut |
| Squash.TrySquash | yrs/src/block.rs:689-714 | two blocks are joined exactly if they continue each other; the second is unlinked; the branch stays well-formed exactly if the entry of no key led to the second |
| Squash.SquashLeft | yrs/src/block_store.rs:226-241 | one join of the loop with the step that mends the entry: the branch always stays well-formed |
| Squash.SquashSame | yrs/src/block_store.rs:226-241 | one join changes nothing of what any chain of the branch shows |
| Compaction.SquashFrom | yrs/src/block_store.rs:222-256 | the whole loop: cells are joined from right to left as long as the next two can be joined, ranges too; exactly the joined ones become one cell, which is the left item, or a range of the same kind, and as long as they were; it shows what they showed, in their order, and every other block shows what it showed; only the items that were joined to another leave the branch; the clocks stay covered without a gap, the branch stays well-formed, and all its chains show what they showed; no block of another branch changes |
| Cursor.BlockIter.constructor | yrs/src/block_iter.rs:19-29 | a new cursor stands at index 0 |
| Cursor.BlockIter.TryForward | yrs/src/block_iter.rs:82-128 | from any well-formed cursor, for every content and kind: moves by exactly `n` units if the branch has as many, and else changes nothing; ends before something visible or at the end |
| Cursor.BlockIter.Backward | yrs/src/block_iter.rs:130-184 | moves back by exactly `n` units; the cursor then stands where its index says exactly if the end had not been reached, or nothing was moved over |
| Cursor.BlockIter.Slice | yrs/src/block_iter.rs:241-296 | for texts whose characters are one code unit, and all other contents: the buffer holds exactly the visible elements from the index on, over live, deleted and uncountable blocks, if there are as many: at each position the value, text or character that the block there has at it |
| Cursor.BlockIter.Delete | yrs/src/block_iter.rs:186-239 | unless a cut is inside a pair: ends; exactly the next `n` elements are no longer visible; exactly their ids become deleted ones, and are added to the set of deletions; the index stays, and the cursor is well-formed |
| Cursor.BlockIter.SplitRel | yrs/src/block_iter.rs:298-311 | unless the cut is inside a pair: the cursor comes to stand before a block, and nothing visible changes |
| Cursor.BlockIter.InsertContents | yrs/src/block_iter.rs:322-367 | the content becomes visible exactly at the index, and nothing else changes; its units are put in one place of the list, whose neighbours it names as its origins, and exactly they are recorded as inserted; the cursor is well-formed after that exactly if it passed over nothing visible |
| Cursor.PlaceBetween | yrs/src/block.rs:911-918 | a block between two neighbours is not moved by the conflict scan |
| Cursor.BlockIter.Neighbours | yrs/src/block_iter.rs:46-62 | the blocks to the left and the right of the cursor are neighbours in the chain |
| Cursor.Read | yrs/src/block.rs:1856-1913 | for every content and offset: reads as many elements from the offset on as there are and fit: the values, the texts, of a text its characters, or the one element |
| Gc.Keep | yrs/src/block.rs:617-631 | ends, and though it stops at the first item that is kept already, what holds a kept item is kept; when marks are taken away, exactly the items that hold `it` lose theirs, and what holds a kept item is still kept exactly if none of those holds another kept item |
| Gc.GCCollector.Collect | yrs/src/block.rs:1565-1576 | through all nested collections: a deleted item loses its content or is marked; all that is nested in it and deleted is marked; no item that is not deleted changes, nor a kept one if what holds a kept item is kept |
| Gc.GCCollector.CollectAll | yrs/src/block.rs:2140-2160 | a collection that a deleted item holds is emptied; all deleted items of its sequence and of the chains of its keys are marked, and what is nested in them; the collections around it stay as they are |
| Gc.FindIndex | yrs/src/block_store.rs:49-77 | bisection: finds the cell that covers a clock exactly if there is one |
| Gc.CollectClient | yrs/src/gc.rs:87-102 | every deleted item with a marked clock becomes a range of the same clocks, and no other cell changes |
| Gc.SweepTiles | yrs/src/gc.rs:87-102 | the sweep keeps the clocks of a client covered without a gap, by cells with the same starts and lengths |
| Gc.MarkInScope | yrs/src/gc.rs:29-63 | exactly the deleted items that are not kept, in the cells that the walks from the ranges reach, lose their content |
| Gc.MarkRange | yrs/src/gc.rs:38-58 | the walk for one range comes by exactly the cells that it should: the reach is given for every start, inside a block or not |
| Gc.WholeRange | yrs/src/gc.rs:38-58 | a range that starts where a cell starts reaches exactly the cells that it contains |
| Gc.CollectScope | yrs/src/gc.rs:12-16 | the collection at the end of a transaction: exactly the deleted items in reach of the ranges that are not kept lose their content; exactly the marked items become ranges, and these are the deleted items nested in what was collected, through all levels, and no others; the clocks stay covered; nothing that is not deleted changes, nor a kept item if what holds kept ones is kept |
| Gc.CollectGarbage | yrs/src/gc.rs:19-26 | the same for a whole document: exactly the deleted items in it that are not kept lose their content |
| Floats.NearestIsNearest | yrs/src/any.rs:317-327 | rounding gives the nearest representable number, and of two the even one |
| Floats.WideningIsExact | yrs/src/any.rs:39-91 | a 32-bit float read back as 64 bits is the same number |
| Floats.BothFloats | yrs/src/any.rs:125-202 | an integer that a 32-bit float gives back is given back by the 64-bit float too: the short tag loses nothing |
| FloatValues.Unpack64Number | yrs/src/any.rs:39-91 | a 64-bit pattern stands for the number that the standard says: sign, exponent less 1023, fraction of 52 digits, and subnormal numbers |
| FloatValues.Unpack32Number | yrs/src/any.rs:39-91 | the same of a 32-bit pattern, with 127 and 23 |
| FloatValues.PackUnpack64 | yrs/src/any.rs:125-202 | a pattern that is not NaN is the only one of its value |
| FloatValues.NearestFloat | yrs/src/any.rs:317-327 | an integer becomes the nearest of all 64-bit floats |
| FloatValues.PowerPattern | yrs/src/any.rs:125-202 | the patterns of all powers of two that are integers, in both formats |
| FloatValues.CastIs | yrs/src/any.rs:302-315 | a float is cut off to an integer towards zero; what is too large becomes the nearest limit, and NaN becomes 0 |
| Numbers.AsI64Exact | yrs/src/any.rs:302-315 | a float is taken for an integer exactly if it is that number; 2^63 is taken for `i64::MAX`, and no other float for another number |
| Numbers.AsF64Exact | yrs/src/any.rs:317-327 | an integer is taken for a float exactly if some float is that number, or it is `i64::MAX` |
| Numbers.SameNumberIs | yrs/src/any.rs:332-343 | an integer and a float are equal exactly if the float stands for the integer, up to `i64::MAX` |
| Numbers.EqualFloats | yrs/src/any.rs:332-343 | two floats are equal exactly if their numbers are, or they are the same infinity |
| Numbers.IntForm | yrs/src/any.rs:146-165 | an integer is written in the first form that loses nothing, and byte by byte so: short, as a float of 32 bits that stands for it, as one of 64, or whole |
| Numbers.FloatForm | yrs/src/any.rs:166-176 | a float is written as 32 bits exactly if a 32-bit float is the same number, or it is infinite |
| Codec.IntComesBack | yrs/src/any.rs:302-315 | every 64-bit integer comes back as that integer from the number that was written for it, `i64::MAX` too, whose float only comes back because the cast saturates |
| Codec.DecodeEncode | yrs/src/any.rs:39-202 | reading a written value uses up exactly its bytes and gives an equal value, for every tree of values |
| Codec.IntThroughBytes | yrs/src/any.rs:39-202 | every 64-bit integer comes back through the bytes |
| Framing.DecodeMore | yrs/src/any.rs:39-91 | reading a value looks at no byte after it |
| Framing.CutShortFails | yrs/src/any.rs:39-91 | a written value with bytes missing at its end is not read |
| Framing.UnknownTag | yrs/src/any.rs:39-91 | no value begins with any other tag than those of the table |
| Framing.InsertReplaces | yrs/src/any.rs:39-91 | of a key that is read twice the last value is kept, and all other keys keep theirs |
| Codec.Writer.EncodeTo | yrs/src/any.rs:125-202 | the loops that write into a buffer append the encoding |
| Codec.Reader.DecodeFrom | yrs/src/any.rs:39-91 | the loops that read do what the decoding function says, and fail where it fails |
| Bytes.Utf8Back | yrs/src/any.rs:39-202 | strings come back from their UTF-8 bytes |
| Bytes.Utf8Only | yrs/src/encoding/read.rs:154-158 | bytes are read as a string exactly if they are what it is written as |
| Bytes.ReadVarEnds | yrs/src/encoding/varint.rs:228-243 | where reading a variable-length integer ends, and with which of the errors it fails, for all bytes |
| Bytes.AddBitsAt | yrs/src/encoding/varint.rs:228-243 | bit by bit: each byte adds seven bits at its position, which wraps around, as far as there is room |
| Bytes.ToBytesAt | yrs/src/encoding/write.rs:82-96 | fixed-width numbers are written with the greatest digit first |
| Bytes.ReadSignedBack | yrs/src/encoding/varint.rs:204-226 | every signed variable-length integer but the least one, whose negation overflows, comes back, with what follows it untouched |
| Findings.CutFace | yrs/src/block.rs:1696-1736 | one character of 4 bytes, cut in the middle: 6 bytes, and joining does not give it back |
| Findings.RangeTooShort | yrs/src/block.rs:1028 | 3 units, 1 known, no branch: of the 2 units to be recorded one is lost |
| Findings.BackFromEnd | yrs/src/block_iter.rs:136-148 | one element, to the end and back: the index is 0, the cursor at the end |
| Findings.JoinEntries | yrs/src/block.rs:689-714 | two deleted entries of a key, joined: the key leads to the block that is gone |
| Findings.AppendOne | yrs/src/block_iter.rs:359-364 | an insertion into an empty branch: the cursor does not stand where its index says |
| Findings.KeepOneOfTwo | yrs/src/block.rs:617-631 | two kept items of a collection, one no longer kept: nor is what holds the other |
| Findings.OneLess | yrs/src/any.rs:302-315 | the float 2^63 is taken for 2^63 - 1 |
| Findings.RangeInside | yrs/src/gc.rs:38-58 | blocks 0 to 5 and 5 to 7, and the range from 2 to 7: only the first is reached |

## Left out

- Block.Item.Splice: does not model an offset in bytes, such as `yrs/src/branch.rs:387` and `:418` may pass on: it would
  set the length of a block to a number of bytes. These are reached from XML fragments, whose blocks are no text.
- Integration.Transaction.Delete: does not model that deleting a collection deletes what is in it
  (`yrs/src/transaction.rs:806-870`), change events, sub-documents and weak links.
- Integration.Transaction.Repair: does not model branches that are looked up by name or by the id of an item
  (`yrs/src/update.rs:478-500`); the branch is given, or taken from a neighbour, or missing.
- Integration.Transaction.IntegrateInto: does not model what a content does when it is integrated but for content
  that is gone: sub-documents, weak links and formatting (`yrs/src/block.rs:863-900`).
- Integration.Transaction.IntegrateItem: does not model the lookup of a branch by name or by the id of an item
  (`yrs/src/block.rs:1016-1026`).
- Replica.Receive: does not model that a neighbour was collected and became a range without content; nor
  blocks that wait for missing ones, which are delivered once their origins are there.
- Outcome.SameOutcome: does not model how sets of deletions are sent and applied (`yrs/src/transaction.rs:686-783`);
  that the same units are deleted on both sides is a premise. `ReceiveShown`, `DeleteShown` and `CollectShown` keep it.
- Outcome.CollectShown: is about branches whose holder is not deleted; what is nested in something deleted is not shown.
- Cursor.BlockIter.Slice: leaves out texts with characters outside of the basic plane, or not ASCII if bytes are
  measured. There the program itself mixes characters and units (`yrs/src/block.rs:1873`).
- Cursor.BlockIter.Delete: leaves out texts that are measured in bytes and not ASCII, where the program adds bytes to
  clocks (`yrs/src/block_iter.rs:200`), and cuts inside of a pair, which replace its halves.
- Cursor.BlockIter.SplitRel: the same.
- Cursor.BlockIter.InsertContents: leaves out texts that are measured in bytes and not ASCII, in the content or around it.
- Compaction.SquashFrom: does not model the ranges of `yrs/src/block_store.rs:129-214`, which join the same blocks and
  take them out of the list at once.
- Codec.DecodeEncode: buffers and strings of 4 GiB and more, whose lengths do not fit their field, are excluded.
- Codec.Reader.DecodeFrom: does not model that memory cannot be reserved.
- Text.SplitStr: does not model that slices of the string are borrowed rather than copied.
- Formatting attributes, rich text deltas, weak links, sub-documents, undo and redo, observers and snapshots:
  their stores are not part of this model, and the core does not depend on them.
- The order of blocks in the store while blocks are integrated, gaps and skipped ranges: there a store is a set of
  blocks with disjoint ids. For the sweep and for joining it is a sequence of cells per client.
- The encoding of updates and of block contents. The JSON content of old documents does not come back
  (`yrs/src/block.rs:2037-2044` reads one string more than were written).
- The 32-bit wrap-around of lengths and clocks other than in `GcRange`. The length of a branch in bytes is an
  integer here, and can fall below zero after cuts inside of pairs; the original wraps.
