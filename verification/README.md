# Verified model of the storage engine

A Dafny model of the storage engine of a small relational database: what is on its pages, how records
become bytes, how B+tree leaves split and merge, how the buffer pool moves pages between memory and
disk, which frame is evicted, and how column types are written as SQL text. `dafny verify
dfyconfig.toml` checks all of it.

## Parts

- **Slotted page.** `PageLayout.dfy` says what a page means: header fields and a list of records at
  places in the heap. `PageRuns.dfy` proves what the operations keep and that runs of them are list
  operations. `SlottedPage.dfy` is the view that changes an 8192-byte array in place; each method is
  proved to leave exactly the bytes of the page value the specification computes, with the byte
  reasoning in `PageBytes.dfy` and `Bytes.dfy`.
- **Records.** `DataModel.dfy` has column types, values and their comparison, and `KeyOrder.dfy` what that
  comparison means on the values; `RecordFormat.dfy` the record format as functions; `Serializer.dfy` the
  loops with their cursors, proved equal to those functions, panics included; `RecordLayout.dfy` where every
  written byte comes from, `RecordReading.dfy` what reading gives on any bytes and writing on any values,
  `Utf8.dfy` which bytes are texts; `RoundTrip.dfy`, `PrimaryKeys.dfy` and `KeyExtraction.dfy` the round trip
  and the agreement of the three ways to get a key.
- **Leaf.** `LeafSpec.dfy` and `LeafSplit.dfy` on page values, `SplitFailure.dfy` an input on which a split
  loses a record, `LeafNode.dfy` the view that works in place on up to three page buffers, `LeafChain.dfy` and
  `LeafRuns.dfy` the chain of leaves and runs of calls on it, refused calls included.
- **Evictor.** `Evictor.dfy`: the clock, its exact choice rule and the starvation bound.
- **Buffer pool.** `PoolModel.dfy` is a step system: each critical section, and each stretch between two
  awaits, is one step. `PoolInvariant.dfy` proves the invariant step by step, `PoolCoherence.dfy` that the
  pool refines a map from pages to bytes, `PoolRequests.dfy` what each request gets, who may hold a page
  together and which pages are flushed, `PoolProgress.dfy` that nothing waits in a circle and everything
  begun can finish. `BufferPool.dfy` has the manager and its frames as classes, each method proved to take
  one step, with the clock evictor choosing the victims.
- **Type text.** `TypeText.dfy`: printing and parsing of column types; `TypeGrammar.dfy`: which texts are
  which types, stated on the text.

## How the pool's steps are cut

A pin-count change and the evictor change that goes with it are one step, as are a write through a guard
and `mark_dirty`, and the allocation of a page and the page-table section of its creation. A page is
fetched only if it is allocated and, if it was created, its creator has had its guard; the creator writes
the whole page and marks it dirty before it drops the guard. A `create_page` with every frame pinned panics;
it is no step. The fetch that fills a frame keeps the frame's write lock while it flushes its victim
(buffer_pool_manager.rs:272-313), and the model has that lock. Disk and channel operations do not fail.

## Where the code departs from what its comments suggest

- The previous-sibling link of a page that splits is lost (leaf_node_view.rs:250-295); `SplitBackLinks` says
  when that matters.
- A split can fail after the left page has been rewritten, and then records are on neither page;
  `SplitExactly` gives the exact condition and `SplitLosesRecord` an input.
- `get_primary_key` panics unless the key lists its columns in schema order; `PrimaryKeyExactly`.
- A created page starts with the bytes of the page evicted for it; `CreatorSees`.

## Model

| member | source | states |
|---|---|---|
| SlottedPage.SlottedPageView.Initialize | crates/storage/src/slotted_page_view.rs:32-71 | an initialised page is empty, unlinked, with the heap at the page end and zero behind the header; of the 64-bit parent index only the low half survives, its high half lies where the previous-sibling index is written |
| SlottedPage.SlottedPageView.GetItemCount | crates/storage/src/slotted_page_view.rs:201-210 | the stored count is the number of records |
| SlottedPage.SlottedPageView.GetSlot | crates/storage/src/slotted_page_view.rs:406-419 | the stored offset and length are those of the record at the index |
| SlottedPage.SlottedPageView.GetRecord | crates/storage/src/slotted_page_view.rs:218-231 | the bytes of the record at an index, None past the end |
| SlottedPage.SlottedPageView.GetFreeSpaceContiguous | crates/storage/src/slotted_page_view.rs:184-198 | the gap between slot array and heap, without underflow |
| SlottedPage.SlottedPageView.GetFreeSpace | crates/storage/src/slotted_page_view.rs:158-182 | total free space is 8192 - 32 - 4n - the sum of the record lengths, without underflow |
| SlottedPage.SlottedPageView.TryInsertRecord | crates/storage/src/slotted_page_view.rs:233-297 | the in-place writes leave exactly the bytes of the page with the record inserted; PageFull is decided before InvalidSlotIndex, and an error changes no byte |
| SlottedPage.SlottedPageView.TryUpdateRecord | crates/storage/src/slotted_page_view.rs:299-357 | the in-place writes leave exactly the page with the record replaced, over the old bytes or relocated below the heap; an error changes no byte |
| SlottedPage.SlottedPageView.DeleteRecord | crates/storage/src/slotted_page_view.rs:128-149 | the slots close up and nothing else changes; an index out of range is ignored |
| SlottedPage.SlottedPageView.Compact | crates/storage/src/slotted_page_view.rs:73-126 | the in-place repacking keeps every record at its index, makes all free space contiguous and clears it; without fragmentation it changes no byte |
| SlottedPage.SlottedPageView.WritePacked | crates/storage/src/slotted_page_view.rs:96-115 | the repack loop writes each record above the slot array and leaves header and later slots alone |
| SlottedPage.SlottedPageView.SetPrev | crates/storage/src/btree/leaf_node_view.rs:162-171 | only the previous-sibling field of the page changes |
| SlottedPage.SlottedPageView.SetNext | crates/storage/src/btree/leaf_node_view.rs:152-161 | only the next-sibling field of the page changes |
| PageLayout.CoverSize | crates/storage/src/slotted_page_view.rs:172-181 | disjoint records occupy as many addresses as their lengths add up to |
| PageLayout.LiveFits | crates/storage/src/slotted_page_view.rs:158-182 | the record lengths add up to at most the heap, so no free-space subtraction underflows |
| PageRuns.InsertKeeps | crates/storage/src/slotted_page_view.rs:233-297 | insertion succeeds exactly when record and slot fit and the index is valid, is list insertion on the records, and keeps slots below heap and records inside the heap and apart |
| PageRuns.UpdateKeeps | crates/storage/src/slotted_page_view.rs:299-357 | the same for update: exact success condition, list replacement, layout kept |
| PageRuns.DeleteKeeps | crates/storage/src/slotted_page_view.rs:128-149 | the same for deletion: list removal, layout kept |
| PageRuns.CompactKeeps | crates/storage/src/slotted_page_view.rs:73-126 | compaction keeps the records, sets the heap start to the page size minus the record lengths, leaves no fragmentation, and a second one does nothing |
| PageRuns.InsertAfterCompact | crates/storage/src/slotted_page_view.rs:73-126 | after compaction an insertion fails only for want of total free space |
| PageRuns.StepRefines | crates/storage/src/slotted_page_view.rs:73-357 | every call acts on the records as the same call on a list, or as nothing when it is refused |
| PageRuns.RunsRefineLists | crates/storage/src/slotted_page_view.rs:32-357 | over every run from an initialised page the layout stays sound, the records are the list a client would keep, and the free space is what the lengths leave |
| PageRuns.InitializedPage | crates/storage/src/slotted_page_view.rs:32-71 | an initialised page has no record, no link, the kind asked for, a zero log sequence number, the low half of its parent's index and 8160 free bytes |
| PageRuns.InsertedBelowHeap | crates/storage/src/slotted_page_view.rs:253-262 | an inserted record lies just below the heap as it was |
| PageRuns.LinkReadsBack | crates/storage/src/btree/leaf_node_view.rs:43-63 | a sibling link below the invalid index reads back as it was stored, and None as None |
| PageRuns.RunKeepsHeader | crates/storage/src/slotted_page_view.rs:73-357 | over every run of record operations log sequence number, parent, sibling links and kind stay |
| PageRuns.ErrorsAre | crates/storage/src/slotted_page_view.rs:233-357 | which error: an insertion reports a full page before an index out of range, an update the other way round |
| PageRuns.ContiguousAfter | crates/storage/src/slotted_page_view.rs:128-357 | a record that is no longer stays at its offset, a longer one goes just below the heap, and a deletion gives back its slot only |
| PageRuns.CompactedPlaces | crates/storage/src/slotted_page_view.rs:96-115 | compaction that has something to do stacks the records down from the end of the page in slot order |
| PageBytes.PageFormat | crates/storage/src/page.rs:1-29 | every header field, slot and record byte by byte, numbers with the least significant byte first |
| PageBytes.InsertedRepresents | crates/storage/src/slotted_page_view.rs:253-296 | the slot shift, slot, heap and count writes of an insertion together give the bytes of the inserted-into page |
| PageBytes.CompactedRepresents | crates/storage/src/slotted_page_view.rs:96-125 | the repacked, cleared and re-headed bytes are those of the compacted page |
| Serializer.CalculateSize | crates/storage/src/record_serializer.rs:337-385 | the size loop gives total size, fixed size and the list of variable lengths |
| Serializer.Serialize | crates/storage/src/record_serializer.rs:28-119 | the one-pass writer with two cursors gives the encoding of the record, whose bytes `RecordLaidOut` states, or the error or panic of the first value that cannot be written, which `WrittenExactly` and `MisfitAnswers` state |
| Serializer.FindVariableStart | crates/storage/src/record_serializer.rs:391-410 | the loop finds where the variable region starts |
| Serializer.Deserialize | crates/storage/src/record_serializer.rs:122-157 | the two-cursor reader decodes the columns; `ReadExactly` states what that gives on any bytes |
| Serializer.DeserializeKey | crates/storage/src/record_serializer.rs:174-244 | the early-exit scan gives what scanning all columns would |
| RoundTrip.RoundTripExactly | crates/storage/src/record_serializer.rs:28-157 | a record that can be written reads back as itself if and only if it has one value for each column, nulls only in nullable columns, values of the exact column types and lengths below 2^31 |
| RoundTrip.CursorsMeet | crates/storage/src/record_serializer.rs:44-47 | when reading an encoded record the fixed cursor ends where the variable region starts and the variable cursor at the end of the bytes |
| RecordLayout.RecordLaidOut | crates/storage/src/record_serializer.rs:14-119 | where every byte of a written record comes from, said of the record: the bitmap is the least number of bytes with a bit for each column, bit i % 8 of byte i / 8 set exactly for a null; then each non-null fixed-length value at the bitmap size plus the widths of those before it, each byte its base-256 digit; then each text and blob behind its four-byte length; and nothing else |
| RecordLayout.FixedValueIs | crates/storage/src/record_serializer.rs:277-315 | the bytes of a fixed-length value are read as the value whose stored number they hold, any byte but zero as true, and a decimal scale above 28 cut down |
| RecordReading.ReadExactly | crates/storage/src/record_serializer.rs:122-157 | on any bytes, reading gives a record if and only if the bytes are laid out as that record: the bitmap bits, each fixed-length value at its place, each text and blob behind its length at its place |
| RecordReading.NullsRefused | crates/storage/src/record_serializer.rs:137-143 | bytes that would be read as a record if every column were nullable give NullValueForNonNullColumnFound exactly when a column that is not nullable has a null |
| RecordReading.WrittenNullsRefused | crates/storage/src/record_serializer.rs:28-157 | a null is written for any column; reading it back then is that error exactly when some column with a null is not nullable |
| RecordReading.WrittenExactly | crates/storage/src/record_serializer.rs:28-119 | writing succeeds exactly when every column has a null, a value as long as its fixed-length type or a boolean, or, when it has no such type, a text or blob; a record with too few values panics |
| RecordReading.MisfitAnswers | crates/storage/src/record_serializer.rs:59-115 | which misfits are DataTypeMismatch and which panic: a text or blob in a fixed-length column is the error and a value of another length a panic; any other value in a variable-length column is the error exactly when a text or blob comes in a later one |
| Utf8.Utf8Exactly | crates/storage/src/record_serializer.rs:325-333 | the byte strings that can be read as a text are exactly the encodings of sequences of Unicode scalar values |
| KeyExtraction.KeyAgrees | crates/storage/src/record_serializer.rs:174-244 | on any bytes that decode, the key scan gives the projection of the decoded record in key order, and fails exactly when a key column is null |
| KeyExtraction.StoredKeyIsRecordKey | crates/storage/src/record_serializer.rs:159-172 | the key read from an encoded record is the key taken from the record |
| PrimaryKeys.GetPrimaryKey | crates/data_model/src/record.rs:19-48 | the loop that inserts key values at their key position, panics included |
| PrimaryKeys.PrimaryKeyExactly | crates/data_model/src/record.rs:33-41 | it panics if and only if the key does not list its columns in schema order, and otherwise gives the projection in key order |
| DataModel.Flip | crates/data_model/src/key.rs:13-14 | comparing two keys the other way round gives the opposite answer |
| DataModel.Transitive | crates/data_model/src/key.rs:13-14 | the key order is transitive, over floats with NaN, decimals and mixed variants alike |
| KeyOrder.ValuesOrdered | crates/data_model/src/data_value.rs:10-21 | two values compare Equal exactly when they are the same value and Less exactly when the first is less: variants in declaration order, numbers and instants by size, false before true, texts and blobs by their first differing byte or as a proper prefix |
| KeyOrder.FloatsOrdered | crates/data_model/src/ordered_float.rs:16-75 | floats are equal exactly when both are NaN, both are zeros or their bits agree; NaN is above every other, and the others are ordered by sign and magnitude |
| KeyOrder.DecimalsOrdered | crates/data_model/src/data_value.rs:10-21 | decimals are equal exactly when they are the same number, whatever their scales, and otherwise ordered as numbers |
| KeyOrder.KeysOrdered | crates/data_model/src/key.rs:13-14 | keys are equal exactly when they have the same values, and less exactly when the first differing column is, or when one is a proper prefix |
| LeafNode.DeserializePrimaryKey | crates/storage/src/record_serializer.rs:159-172 | key of encoded bytes, with the error for a table without primary key |
| LeafNode.LeafNodeView.Append | crates/storage/src/btree/leaf_node_view.rs:30-36 | append is insertion at the item count |
| LeafNode.LeafNodeView.GetNextLeafIndex | crates/storage/src/btree/leaf_node_view.rs:43-52 | the next-sibling field, None for the invalid index |
| LeafNode.LeafNodeView.GetPrevLeafIndex | crates/storage/src/btree/leaf_node_view.rs:54-63 | the previous-sibling field, None for the invalid index |
| LeafNode.LeafNodeView.FindKey | crates/storage/src/btree/ops.rs:9-35 | binary search: finds slot i exactly when the key there has the same values, and otherwise the one place that has smaller keys before and greater keys from it on, in the order of `KeysOrdered` |
| LeafNode.LeafNodeView.InsertRecord | crates/storage/src/btree/leaf_node_view.rs:80-102 | in place: inserts at the lower bound of the key, or reports DuplicateKey or PageFull with no byte changed |
| LeafNode.LeafNodeView.UpdateRecord | crates/storage/src/btree/leaf_node_view.rs:301-318 | in place: replaces the record with the key, or reports KeyNotFound or PageFull with no byte changed |
| LeafNode.LeafNodeView.FindSplitIndexBySize | crates/storage/src/btree/leaf_node_view.rs:320-335 | the running-size loop finds the first index at which the size exceeds half of the total |
| LeafNode.LeafNodeView.SortedWith | crates/storage/src/btree/leaf_node_view.rs:212-243 | the loop builds keys and records with the new one at its place, and a total that omits the new record when it goes last |
| LeafNode.LeafNodeView.SplitAndInsert | crates/storage/src/btree/leaf_node_view.rs:177-299 | in place on three pages: success leaves the two halves linked and the old right sibling pointing back at the new page; a refusal changes nothing; a failure leaves exactly the half-done pages; `SplitKeepsHeaders` and `SplitPoint` state headers and cut |
| LeafNode.LeafNodeView.MoveRecords | crates/storage/src/btree/leaf_node_view.rs:250-289 | the rewrite of the left page and the appends to both pages, with what each outcome leaves |
| LeafNode.LeafNodeView.Merge | crates/storage/src/btree/leaf_node_view.rs:106-150 | in place: all records move over and the right page is emptied, or nothing changes; the append errors are unreachable |
| LeafSpec.LowerBoundSeparates | crates/storage/src/btree/ops.rs:9-35 | in ascending keys the lower bound has the smaller keys before it and the greater ones after it, and the key is present exactly when it is there |
| LeafSpec.InsertKeepsSorted | crates/storage/src/btree/leaf_node_view.rs:80-102 | DuplicateKey exactly when the key is present, PageFull only without contiguous space, and otherwise strict key order is kept |
| LeafSpec.UpdateKeepsSorted | crates/storage/src/btree/leaf_node_view.rs:301-318 | KeyNotFound exactly when the key is absent, PageFull only for a longer record without contiguous space, and otherwise strict key order is kept |
| LeafSpec.InsertBinds | crates/storage/src/btree/leaf_node_view.rs:80-102 | as a map: the key was free, is bound to the new bytes, and no other binding changes |
| LeafSpec.UpdateRebinds | crates/storage/src/btree/leaf_node_view.rs:301-318 | as a map: the key was bound, is bound to the new bytes, and no other binding changes |
| LeafSpec.KeyErrorsMeanSame | crates/storage/src/btree/leaf_node_view.rs:80-102 | an insert answers DuplicateKey exactly when a stored key has the same values, and an update KeyNotFound exactly when none has |
| LeafSpec.LookupMeans | crates/storage/src/btree/ops.rs:9-35 | a lookup finds bytes exactly when a record with those bytes has a key of the same values |
| LeafSpec.SearchMeans | crates/storage/src/btree/ops.rs:9-35 | before the place a search ends every key is less value by value, from there on the same or greater |
| LeafSpec.SortedMeansLess | crates/storage/src/btree/ops.rs:9-35 | in a sorted leaf each key is less than every later one, value by value |
| LeafSpec.RecordKeyIs | crates/data_model/src/record.rs:19-48 | the key of a record a leaf can take has the values of the key columns in key order |
| LeafSplit.AppendAllKeeps | crates/storage/src/btree/leaf_node_view.rs:266-282 | appending a list succeeds exactly when the list with its slots fits, and otherwise leaves the prefix that went in |
| LeafSplit.RewrittenHeader | crates/storage/src/btree/leaf_node_view.rs:250-267 | the page header a split writes on the left page has the old parent's low half and no previous-sibling link, so that link is right only if there was none; `SplitKeepsHeaders` states what the whole split leaves |
| LeafSplit.SplitKeepsHeaders | crates/storage/src/btree/leaf_node_view.rs:250-295 | a split, whether it is Ok or breaks, leaves the left page with its old parent, the leaf kind, no previous page and the right index or none as next page, and the right page with its own parent, kind and log sequence number |
| LeafSplit.LeftFits | crates/storage/src/btree/leaf_node_view.rs:270-274 | the appends to the left page never fail and its bytes are at most half of the total the split is balanced on |
| LeafSplit.SplitExactly | crates/storage/src/btree/leaf_node_view.rs:209-289 | with nonempty records the split is Ok exactly when the upper part fits the right page; a failed one leaves the lower part left and a strict prefix of the upper part right |
| LeafSplit.BrokenStopsAt | crates/storage/src/btree/leaf_node_view.rs:270-282 | a split that breaks has everything before the split point left, and right the records from there up to the first that does not fit |
| LeafSplit.SplitPoint | crates/storage/src/btree/leaf_node_view.rs:209-247 | the left page of a split that is Ok gets records up to half of the old bytes, or of old and new bytes when some old key is above the new one, and no more would stay within that half |
| LeafSplit.SmallRecordsSplit | crates/storage/src/btree/leaf_node_view.rs:177-299 | if no record, old or new, takes more than a quarter of the old bytes, the split onto an initialised page is Ok and leaves both pages nonempty |
| LeafSplit.AppendAllStopsAt | crates/storage/src/btree/leaf_node_view.rs:270-282 | appending stops at the first record that does not fit |
| SplitFailure.SplitLosesRecord | crates/storage/src/btree/leaf_node_view.rs:177-299 | a table with an integer key and a text column, two inserts into a fresh leaf, and a third that reports PageFull: the split for it fails on the right page after the left one was rewritten, with the second record on neither page |
| LeafSplit.SplitConserves | crates/storage/src/btree/leaf_node_view.rs:177-299 | a split that is Ok: left then right are the old records with the new one in key order, the separator is the first right key, above every left key and not above any right key |
| LeafSplit.MergeExactly | crates/storage/src/btree/leaf_node_view.rs:106-150 | a merge is refused exactly when the right records with their slots do not fit, and otherwise no append fails, left becomes left followed by right with its header but the next link kept, and the right page is empty, of the invalid kind and unlinked |
| LeafSplit.MergeKeepsSorted | crates/storage/src/btree/leaf_node_view.rs:106-150 | two sorted leaves in order merge to a sorted leaf |
| LeafChain.SplitBackLinks | crates/storage/src/btree/leaf_node_view.rs:284-295 | after a split every back link but that of the split page is right, and that one only if the page was the first |
| LeafChain.SplitKeepsChain | crates/storage/src/btree/leaf_node_view.rs:262-295 | a split that is Ok adds exactly one page to the next chain and one record to its content, which stays strictly sorted; all back links are right if and only if the split page had no previous page |
| LeafChain.MergeKeepsChain | crates/storage/src/btree/leaf_node_view.rs:137-149 | a merge removes exactly one page from the next chain and keeps the content and all back links |
| LeafRuns.LeafSearch | crates/storage/src/btree/ops.rs:9-35 | for a key above every key before a leaf and below every key after it, searching that leaf answers for the whole chain: same presence, same place, same bytes |
| LeafRuns.StepKeepsChain | crates/storage/src/btree/leaf_node_view.rs:80-318 | each insert, update, split or merge keeps the chain linked and sorted; one that succeeds changes the content at the one place and the one binding it should, and a refused one changes nothing |
| LeafRuns.StepAnswers | crates/storage/src/btree/leaf_node_view.rs:80-318 | an insert answers DuplicateKey exactly when the chain has the key, an update KeyNotFound exactly when it does not, a merge is refused exactly for want of space, and otherwise an error is PageFull with the page too full |
| LeafRuns.RunIsSortedMap | crates/storage/src/btree/leaf_node_view.rs:80-318 | over every run from one fresh leaf, refused calls included, the chain is a sorted map: a lookup finds the bytes last written under the key |
| LeafRuns.RunAnswers | crates/storage/src/btree/leaf_node_view.rs:80-318 | after every such run an insert answers DuplicateKey exactly when something was written under its key, and an update KeyNotFound exactly when nothing was |
| Evictor.ClockEvictor.Add | crates/storage/src/evictor.rs:55-68 | the frame becomes eligible with its reference bit set |
| Evictor.ClockEvictor.Remove | crates/storage/src/evictor.rs:70-77 | the frame is no longer eligible; its reference bit stays |
| Evictor.ClockEvictor.Size | crates/storage/src/evictor.rs:79-82 | size is the number of eligible frames |
| Evictor.ClockEvictor.Victim | crates/storage/src/evictor.rs:84-112 | None exactly when no frame is eligible; otherwise, within two rounds, the cyclically first eligible frame with a clear bit, or the first eligible one when all bits are set, with exactly the bits passed cleared |
| Evictor.HandGoesUp | crates/storage/src/evictor.rs:84-112 | the hand visits the frames in ascending order and goes on at 0 after the last |
| Evictor.SweepUsesReserve | crates/storage/src/evictor.rs:84-112 | each victim call that passes a frame over brings the hand nearer to taking it |
| Evictor.NoStarvation | crates/storage/src/evictor.rs:84-112 | a frame that stays eligible and is neither added again nor removed is evicted within 2n victim calls |
| BufferPool.BufferPoolManager.constructor | crates/storage/src/buffer_pool_manager.rs:30-45 | a new pool: all frames free, zero and clean |
| BufferPool.BufferPoolManager.PinFrame | crates/storage/src/buffer_pool_manager.rs:347-356 | the pin count and the evictor change together on the first pin |
| BufferPool.BufferPoolManager.UnpinFrame | crates/storage/src/buffer_pool_manager.rs:361-370 | the pin count and the evictor change together on the last unpin |
| BufferPool.BufferPoolManager.EvictPage | crates/storage/src/buffer_pool_manager.rs:316-343 | the victim leaves table and evictor, a dirty one with a copy of its bytes; None exactly when nothing is evictable |
| BufferPool.BufferPoolManager.StartFetch | crates/storage/src/buffer_pool_manager.rs:171-248 | the page-table section of a fetch makes an operation of the kind and on the page asked for, by the Hit or the Miss step, or is BufferFull with nothing changed and no frame to take |
| BufferPool.BufferPoolManager.WaitForPageFetch | crates/storage/src/buffer_pool_manager.rs:374-395 | subscribes exactly when the fetch of the page is in flight |
| BufferPool.BufferPoolManager.WaitForPageFlush | crates/storage/src/buffer_pool_manager.rs:399-420 | subscribes exactly when the flush of the page is in flight |
| BufferPool.BufferPoolManager.ReadPage | crates/storage/src/buffer_pool_manager.rs:259-268 | the disk read of a miss is the ReadDisk step |
| BufferPool.BufferPoolManager.PublishFetch | crates/storage/src/buffer_pool_manager.rs:272-284 | filling the frame and ending the fetch is the Publish step, and the frame's lock is always free for it |
| BufferPool.BufferPoolManager.Resume | crates/storage/src/buffer_pool_manager.rs:383-384 | receiving a message and locking the frame change nothing the manager has |
| BufferPool.BufferPoolManager.WriteVictim | crates/storage/src/buffer_pool_manager.rs:287-292 | writing the victim is the WriteFlush step |
| BufferPool.BufferPoolManager.FinishFlush | crates/storage/src/buffer_pool_manager.rs:294-303 | closing the flush is the EndFlush step |
| BufferPool.BufferPoolManager.StartCreate | crates/storage/src/buffer_pool_manager.rs:47-99 | allocation and page-table section of a create are the CreatePage step, in which the frame keeps its bytes and its dirty flag; with every frame pinned the call panics and only the allocation has happened |
| BufferPool.BufferPoolManager.ReadThroughGuard | crates/storage/src/page_guard.rs:36-42 | a guard reads the current bytes of its page |
| BufferPool.BufferPoolManager.WriteThroughGuard | crates/storage/src/page_guard.rs:85-87 | a marked write replaces the bytes and sets the dirty flag |
| BufferPool.BufferPoolManager.DropGuard | crates/storage/src/page_guard.rs:106-117 | dropping a guard unpins, and makes the frame evictable on the last drop |
| PoolInvariant.NewPoolIsSound | crates/storage/src/buffer_pool_manager.rs:30-45 | the invariant holds at the start |
| PoolInvariant.StepKeeps | crates/storage/src/buffer_pool_manager.rs:47-420 | every step keeps the invariant: the page table is injective and agrees with the frames, free and mapped frames partition all frames, pin counts are the operations on the frame, the evictor has the mapped frames with pin count zero, clean fetched frames equal disk, at most one flush of a page is in flight, waiting operations are subscribed or have their message, and a write lock excludes all others |
| PoolInvariant.TableAndFrames | crates/storage/src/buffer_pool_manager.rs:171-248 | under the invariant the page table is injective and every frame is either free or holds the page mapped to it |
| PoolInvariant.PinsAndEvictor | crates/storage/src/buffer_pool_manager.rs:345-370 | under the invariant a frame's pin count is the number of operations and guards on it, and it is evictable exactly when it is mapped and there are none |
| PoolInvariant.OneFlushOneFetch | crates/storage/src/buffer_pool_manager.rs:207-244 | under the invariant at most one operation flushes a page and at most one fetches it |
| PoolCoherence.StepRefines | crates/storage/src/buffer_pool_manager.rs:171-314 | a step changes the bytes of a page, wherever they lie, only by a write through a guard on that page |
| PoolCoherence.RunIsCoherent | crates/storage/src/buffer_pool_manager.rs:47-314 | over every interleaving the bytes of a page in frame, in a flush in flight or on disk are those last written |
| PoolCoherence.GuardsSeeLastWritten | crates/storage/src/buffer_pool_manager.rs:133-163 | over every interleaving a guard sees exactly the bytes last written to its page |
| PoolCoherence.CreatorSees | crates/storage/src/buffer_pool_manager.rs:93-98 | the guard of a created page starts with zeros in a frame never used and with the bytes of the evicted page otherwise |
| PoolCoherence.UnmarkedWriteSafe | crates/storage/src/page_guard.rs:85-87 | a write without mark_dirty keeps the pool sound if and only if the frame is dirty already or the bytes are those on disk |
| PoolRequests.RunServes | crates/storage/src/buffer_pool_manager.rs:47-248 | over every interleaving exactly the requests not given back have an operation, and it has the kind and the page that were asked for |
| PoolRequests.GuardWrites | crates/storage/src/buffer_pool_manager.rs:131-163 | over every interleaving a guard can write exactly when writing, or a new page, was asked for |
| PoolRequests.GuardsShared | crates/storage/src/buffer_pool_manager.rs:131-163 | two guards are on one page only if both were asked for as Read |
| PoolRequests.GuardGiven | crates/storage/src/frame.rs:61-77 | an operation with only the lock to take gets its guard exactly when no other one on its page has a guard, except readers beside a reader, and no fetch of the page is flushing its victim |
| PoolRequests.ReadersShare | crates/storage/src/buffer_pool_manager.rs:131-145 | while one reader has its guard another gets its own |
| PoolRequests.FetchKeepsLock | crates/storage/src/buffer_pool_manager.rs:272-313 | while a fetch flushes its victim nobody has a guard on its page |
| PoolRequests.FullExactly | crates/storage/src/buffer_pool_manager.rs:198-226 | over every interleaving there are as many frames as the pool was made with, and none can be taken exactly when each has an operation on it |
| PoolRequests.FreeFramesFirst | crates/storage/src/buffer_pool_manager.rs:197-202 | while some frame has no page, taking a frame evicts nothing |
| PoolRequests.DirtyExactly | crates/storage/src/buffer_pool_manager.rs:233-239 | over every interleaving a frame is dirty exactly when a marked write went through it since a page was last fetched into it; creating a page on it keeps the flag |
| PoolRequests.FlushedExactly | crates/storage/src/buffer_pool_manager.rs:204-216 | taking a frame flushes its page exactly when it has one and is dirty, with the bytes it has |
| PoolRequests.DiskChanges | crates/storage/src/buffer_pool_manager.rs:47-303 | only creating a page and writing a victim change what is on disk |
| PoolProgress.WaitsForEarlier | crates/storage/src/buffer_pool_manager.rs:241-303 | an operation on a channel, or behind the lock of a flushing fetch, waits for one whose page-table section ran earlier |
| PoolProgress.NoCyclicWaiting | crates/storage/src/buffer_pool_manager.rs:241-303 | no operations wait for each other in a circle |
| PoolProgress.GoesOnOrWaits | crates/storage/src/buffer_pool_manager.rs:374-420 | an operation without its guard can go on, is behind a guard a caller has, or waits for another operation; a loaded fetch never waits for the lock |
| PoolProgress.SomeoneGoesOn | crates/storage/src/buffer_pool_manager.rs:374-420 | among operations without guards one can go on or is behind a caller's guard |
| PoolProgress.EveryScheduleFinishes | crates/storage/src/buffer_pool_manager.rs:171-420 | every schedule of steps of operations already begun, without writing a written page again, has at most as many steps as there is work left, and one that cannot be continued has brought every operation to its end |
| PoolProgress.AllFinish | crates/storage/src/buffer_pool_manager.rs:171-420 | from every sound state some such schedule brings every operation begun to its end |
| TypeText.PrintNumberReads | crates/schema_def/src/primitive_data_type.rs:75-80 | printed decimal digits read back as the number |
| TypeText.NumberRoundTrips | crates/schema_def/src/primitive_data_type.rs:150-152 | a printed number parses in an unsigned type exactly when it is in range |
| TypeText.TrimTrims | crates/schema_def/src/primitive_data_type.rs:89-92 | trimming leaves no white space at the ends and trimmed text as it is |
| TypeText.PrintedParses | crates/schema_def/src/primitive_data_type.rs:69-221 | print then parse gives the type back if and only if it is not Unknown and no decimal with scale above precision |
| TypeText.AcceptedReprints | crates/schema_def/src/primitive_data_type.rs:69-221 | for every accepted text, printing its type and parsing again gives the same type; which texts are accepted as which type is `SpelledMeans` |
| TypeText.SpaceAndCaseIgnored | crates/schema_def/src/primitive_data_type.rs:89-94 | surrounding white space and letter case change neither what is accepted nor the type |
| TypeGrammar.SpelledMeans | crates/schema_def/src/primitive_data_type.rs:89-221 | for every text whose trimmed capital form is a name with arguments: exactly which type it parses to, for every accepted spelling, and exactly which error otherwise |
| TypeGrammar.EveryText | crates/schema_def/src/primitive_data_type.rs:89-119 | every text is blank, unclosed or spelled as a name with arguments, so the three lemmas beside it cover all texts |
| TypeGrammar.BlankIsEmpty | crates/schema_def/src/primitive_data_type.rs:89-92 | a text of white space is EmptyInput |
| TypeGrammar.UnclosedIsInvalid | crates/schema_def/src/primitive_data_type.rs:97-105 | an opening parenthesis with no closing one at the end is InvalidFormat of the trimmed text |
| TypeGrammar.NumberReads | crates/schema_def/src/primitive_data_type.rs:150-152 | an argument is a number in range exactly when it is digits, most significant first, perhaps behind a plus sign, that stand for it |
| TypeGrammar.SpacesAre | crates/schema_def/src/primitive_data_type.rs:89 | the code points trimmed away are the 25 with the Unicode White_Space property |
| TypeGrammar.PrintedText | crates/schema_def/src/primitive_data_type.rs:69-83 | the printed text of each type, its numbers as decimal numerals without leading zeros |

## Left out

- The characters of a text: a text is its UTF-8 bytes, and nothing is said of its characters but that they encode to those.
- The 16-byte form of decimals is that of the rust_decimal crate, which is not part of this model: a flags word with scale and sign, then 96 bits of magnitude.
- Float arithmetic: a float is its 64 bits, ordered as `OrderedFloat` orders them.
- The log sequence number: its eight bytes are carried along and never interpreted.
- The high half of a 64-bit parent index: the code itself overwrites it with the previous-sibling link, and the model does the same.
- Serializer.DeserializeKey: assumes a build with overflow checks, where a negative stored length panics. Without them the scan adds such a length of a skipped column to its offset and wraps to a smaller address; full decoding panics in either build, so `KeyAgrees` does not depend on it.
- PrimaryKeys.PrimaryKeyExactly: stated for distinct column names and distinct key names that are columns, because duplicate names make the lookups ambiguous.
- LeafSplit.SplitConserves: stated for nonempty records; every table with a column encodes to at least one byte.
- LeafRuns.RunIsSortedMap: a run goes on after refused calls but not after a split that breaks, since records are lost then; a split is asked for a key the chain does not have, because the code does not check that itself.
- LeafNode.LeafNodeView.SplitAndInsert: stated for a new record of at least one byte, since with a table of no columns the code can index past its key list.
- Lock poisoning, task scheduling, and the short time in which a dropped guard has unpinned its frame and still has the lock.
- Buffer pool I/O errors: they leave pins and channels behind, so no invariant of this kind holds after one.
- BufferPool.PoolFrame: its bytes are one value replaced whole, which is how the pool treats them; writes through a guard likewise replace the whole page.
- The disk manager and the file system below it: disk is a map from page id to bytes, and an allocated page is zero.
- Which identifier a new operation gets: operations have identifiers the caller of the model chooses, in place of tasks.
- Dispatch in `BTreeNode` and internal nodes: every page is treated as a leaf there.
- Schema constructors, table lookups other than the primary key, error messages and the display of records and keys: constructors that check names, lookups by name, and formatting.
- The checks of `is_compatible`: the serializer does not call it.
