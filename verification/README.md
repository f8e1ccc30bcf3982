# Verified models of overlaybd's hardest parts

Five pieces, each modelled in its own form and proved for all inputs, runs or interleavings.

**The uthash table** (`Handle`, `Buckets`, `AppOrder`, `Bloom`, `StableOrder`, `HashSort`, `HashTable`, `HashRuns`,
`HashFacts`). Handles are objects with `prev`/`next` and `hhPrev`/`hhNext` links; a table is an object with a bucket
array. The invariant is that of `HASH_FSCK` with `tail`, bucket placement, cached hashes, table size and the Bloom
filter added. Ghost fields hold the app order and the chains; every method says what becomes of them. Whole runs are
compared with a finite map; the mergesort, which relinks the list it walks, is compared with one-at-a-time ordered
insertion, which is proved to be a stable sort.

**The FastCDC chunkers** (`GearBits`, `FastCDC`, `FastCDCFacts`). Words are naturals modulo 2^64. The global sizes are
fields of a `Chunker`. The four loops are proved against one notion of a scan and its first hit, and each
states its cut bit by bit over the sum of the shifted gear words. The two-byte forms
never look at the last byte of an odd length, so a one-byte cut just before it becomes a cut at the end.
`rolling_data_2byes_64` keeps using `MinSize_divide_by_2` after a normalized chunker has overwritten `MinSize`: it then
cuts inside the skipped part; `RollingAgreesIff` says exactly when the two forms agree.

**Background download and switch** (`Download`, `DownloadQueue`, `DownloadThreads`, `DownloadAccounts`). Reads, writes,
renames and opens may do anything a file system may do; a `faithful` world is one where they all succeed. One download and the retry loop
of one thread are methods on objects; several threads sharing the lock set are a state machine. The destructor of a
download releases its directory's lock, whoever holds it: closing an image can break the exclusion of another one, and
the safety theorem needs, and says, that this does not happen; that no download is lost or deleted twice needs nothing.
The number of tries comes unchecked from the configuration into an unsigned counter that is decremented first: 0 tries
mean 2^32 attempts, and `AttemptBoundIff` says exactly when the bound holds.

**Trace record and replay** (`TraceFormat`, `TraceFile`, `TraceProtocol`). The file is a sequence of bytes, written by a
process that can be killed at any byte. The handshake through the lock file and the OK file is a state machine of
recorder, watcher, destructor and collector. A cut-off dump reloads to all records or none, but a read that fails in the
middle leaves a part of them, and replaying goes on with that part since nobody looks at what reload returns: `DumpReadIff`
gives the exact condition. The dump looks as if it removed an old OK file, but it calls `unlink` only
when `access` has just failed, so an OK file from an earlier run stays; `TruthfulIffNoStaleOk` says what that costs.

**Wake-ups and base64** (`Wakeup`, `Base64`). Command handlers that switch only at yields, and the codec of section 4 of
RFC 4648, whose tail handling computes junk bytes and never emits them.

`Basics` and `Arith` hold what these share: bytes, optional values, powers of two and remainders.

## Main results

- `HashRuns.Run`: every run of the table agrees with a finite map; `HashTable.HashTable.Add`, `Replace` and `Delete` keep its whole invariant, and a failed add changes nothing.
- `HashTable.HashTable.Expand`, `HashFacts.ExpandedChainsBounded` and `GivenUpIff`: doubling, its counters, its chain bound and its end.
- `HashSort.Sort` and `HashFacts.InorderRunIsSortedRun`: the relinking mergesort sorts stably, and ordered adds give the same order.
- `FastCDC.Chunker.NormalizedTwoBytes`, `FastCDCFacts.RollingAgreesIff`: the two-byte forms agree with the one-byte forms, and when.
- `FastCDCFacts.HitIsLocal`, `Resynchronise`, `NormalizedIsBetween`, `ChunkAll`: locality, resynchronisation, nesting, whole buffers.
- `DownloadQueue.BkDownloadProc`: two faithful attempts commit the layer, whatever `.download` held.
- `DownloadThreads.RunIsSafe`, `DownloadAccounts.RunConserves`, `AllExitedAllDeleted`, `AttemptBoundIff`: all interleavings of the download threads.
- `TraceFile.CutReloads`, `DumpReadIff`: a dump reloads to all or nothing, and exactly when.
- `TraceProtocol.RunIsSafe`, `TruthfulIffNoStaleOk`: all interleavings of recorder and collector.
- `Wakeup.RunCoalesces`, `QuiescentIsClean`, `EveryCommandReported`: all interleavings of command handlers.
- `Base64.RoundTrip`, `DecodeKeepsIffCanonical`: the codec, both ways.

## Model

| member | source | states |
|---|---|---|
| HashRuns.Run | overlaybd/FastCDC-c/uthash.h:164-184 | every run of finds, adds, replaces and deletes from the empty table, across any expansions, any memory failures, with or without the filter: each lookup reports what a finite map holds, the app order is the insertion order of the live items, HASH_COUNT is the size of the map, and noexpand is set exactly after two ineffective expansions in a row |
| HashRuns.Step | overlaybd/FastCDC-c/uthash.h:265-273 | one client call: what it reports and the new app order, from the state before; memory may run out only where the call allocates |
| HashRuns.RunLists | overlaybd/FastCDC-c/uthash.h:407-426 | the live items in insertion order are the entries of the map, each key once, after any sequence of outcomes |
| HashRuns.ListsCount | overlaybd/FastCDC-c/uthash.h:1079-1080 | a list with each key once is as long as the map it lists |
| HashRuns.WithoutItems | overlaybd/FastCDC-c/uthash.h:461-488 | unlinking the item a lookup finds is dropping its key from the list of items |
| HashFacts.CountsAddUp | overlaybd/FastCDC-c/uthash.h:527-574 | in every valid table the bucket counts are the chain lengths, these add up to num_items, and the app-order list has that length too |
| HashFacts.ChainsHoldAll | overlaybd/FastCDC-c/uthash.h:534-556 | bucket chains that hold exactly the items of the app order, each in its home bucket and once, are together as long as the app order |
| HashFacts.ExpandedChainsBounded | overlaybd/FastCDC-c/uthash.h:869-874 | after an expansion no chain is longer than (expand_mult + 1) * ideal_chain_maxlen |
| HashFacts.ToBktIsMask | overlaybd/FastCDC-c/uthash.h:441-444 | the bucket of a hash value is the value masked with the number of buckets less one |
| HashFacts.ExpandsAtTen | overlaybd/FastCDC-c/uthash.h:790-791 | an add doubles the table exactly when it makes its chain at least ten times as long as expand_mult + 1, and expansion has not been given up |
| HashFacts.GivenUpIff | overlaybd/FastCDC-c/uthash.h:888-893 | in every valid table expansion has been given up exactly after two ineffective expansions in a row, and each expansion has doubled the 32 buckets |
| HashFacts.BloomIndexIsMask | overlaybd/FastCDC-c/uthash.h:209-213 | the filter bit of a hash value is addressed by masking it |
| HashFacts.InorderRunIsSortedRun | overlaybd/FastCDC-c/uthash.h:361-392 | every run of ordered adds and deletes, with any memory failures, leaves what plain adds and deletes followed by one sort leave |
| HashFacts.InorderRunIsStable | overlaybd/FastCDC-c/uthash.h:361-392 | such a run keeps the list sorted, equal items in arrival order |
| HashFacts.RunInorder | overlaybd/FastCDC-c/uthash.h:361-392 | the same of a table: any run of ordered adds and deletes, with any memory failures, leaves a valid table whose app order is the sorted plain one |
| HashFacts.OrderedStep | overlaybd/FastCDC-c/uthash.h:361-392 | one ordered add or delete by a client: the new app order, and memory runs out only where the call allocates |
| HashFacts.WithoutInsertAll | overlaybd/FastCDC-c/uthash.h:461-488 | deleting commutes with the stable sort |
| HashTable.HashTable.Find | overlaybd/FastCDC-c/uthash.h:164-184 | the result is an item with the key, and null exactly when no item has it |
| HashTable.HashTable.Add | overlaybd/FastCDC-c/uthash.h:407-426 | keeps the invariant; appends the item; fails exactly when memory runs out for a new table, or in an expansion that this add triggers; a failed add leaves everything as before; a successful one pushes on one chain and leaves all sizes alone, or doubles the table with the right counters, or makes a new table |
| HashTable.HashTable.AddInorder | overlaybd/FastCDC-c/uthash.h:361-392 | as Add, with the item put before the first one that compares greater |
| HashTable.HashTable.AddToTable | overlaybd/FastCDC-c/uthash.h:324-344 | the item is counted, in its chain and in the filter, and the sizes are unchanged or those of one expansion; or, when memory runs out, everything is as it was |
| HashTable.HashTable.AddToBkt | overlaybd/FastCDC-c/uthash.h:780-799 | pushes on the front of the chain, doubles the table exactly when the count reaches the threshold and expansion is allowed, and takes the push back when that fails |
| HashTable.HashTable.Expand | overlaybd/FastCDC-c/uthash.h:846-896 | keeps the item set; the new sizes, ideal length, non-ideal items, multipliers and the inefficiency counter; nothing changes without memory |
| HashTable.HashTable.Rollback | overlaybd/FastCDC-c/uthash.h:331-333 | counting the unlinked item once more and deleting it again restores chains, counts, order and num_items |
| HashTable.HashTable.RollbackBkt | overlaybd/FastCDC-c/uthash.h:149-157 | one too many in the count of its own bucket, and the item detached |
| HashTable.HashTable.DeleteHH | overlaybd/FastCDC-c/uthash.h:461-488 | unlinks from list and chain, keeping head, tail and counts; the last item leaves no table |
| HashTable.HashTable.Delete | overlaybd/FastCDC-c/uthash.h:458-459 | keeps the invariant; the app order loses just this item, its bucket counts one less, and nothing else that decides about an expansion changes |
| HashTable.HashTable.DeleteKey | overlaybd/FastCDC-c/uthash.h:268-271 | deletes the item with the key, if there is one, and says which |
| HashTable.HashTable.Replace | overlaybd/FastCDC-c/uthash.h:265-280 | returns the item that had the key; the new item is last in the app order; memory runs out exactly when a new table, or the expansion that the push after the deletion triggers, cannot be allocated; chains and sizes are those of the deletion and the add |
| HashTable.HashTable.ReplaceInorder | overlaybd/FastCDC-c/uthash.h:255-263 | as Replace, with the new item in its ordered place |
| HashTable.HashTable.Sort | overlaybd/FastCDC-c/uthash.h:903-985 | the app order becomes its stable sort; chains, counts and filter still hold; head and tail are its ends |
| HashTable.HashTable.Count | overlaybd/FastCDC-c/uthash.h:1079-1080 | the length of the app order |
| HashTable.HashTable.Clear | overlaybd/FastCDC-c/uthash.h:1050-1059 | an empty table |
| HashTable.HashTable.MakeTable | overlaybd/FastCDC-c/uthash.h:223-253 | 32 empty buckets, zero counters, an empty filter |
| HashTable.HashTable.SameLinks | overlaybd/FastCDC-c/uthash.h:331-335 | with the same order and chains every item has the same four links as before |
| HashTable.IdealIsCeiling | overlaybd/FastCDC-c/uthash.h:859-861 | the ideal length is the least length with which the doubled buckets hold all items: a ceiling |
| HashTable.MultCovers | overlaybd/FastCDC-c/uthash.h:869-874 | however many items land in a bucket, the multiplier grown by the loop covers them |
| HashTable.MultIsLeast | overlaybd/FastCDC-c/uthash.h:869-874 | the multiplier is the smaller of ceil(count / ideal) and the items beyond the ideal length |
| Buckets.DoubleBuckets | overlaybd/FastCDC-c/uthash.h:863-887 | every old bucket is split, reversed, between b and b + n; counts, multipliers and the total beyond the ideal length are those of the new chains |
| Buckets.MovedNext | overlaybd/FastCDC-c/uthash.h:865-882 | the item about to move is not in its new chain yet, and moving it is one more step of the split |
| Buckets.HalfHome | overlaybd/FastCDC-c/uthash.h:867 | doubling sends bucket b only to b and b + n |
| Buckets.PushFront | overlaybd/FastCDC-c/uthash.h:783-789 | the chain gets a new front; every other chain is untouched |
| Buckets.DelInBkt | overlaybd/FastCDC-c/uthash.h:802-815 | the chain loses just this item, or nothing when the item is detached; the count goes down by one |
| Buckets.FindInBkt | overlaybd/FastCDC-c/uthash.h:758-777 | an item of the chain with the key, or none has it |
| Buckets.MoveChain | overlaybd/FastCDC-c/uthash.h:865-882 | walks one old chain while relinking it, each next link read before it is overwritten |
| AppOrder.Append | overlaybd/FastCDC-c/uthash.h:289-295 | the item becomes the last of the list |
| AppOrder.FindSpot | overlaybd/FastCDC-c/uthash.h:297-304 | the position of the first item that compares greater: linking there is the ordered insertion |
| AppOrder.LinkBefore | overlaybd/FastCDC-c/uthash.h:379-385 | the list with the item at that position, linked both ways, with its head |
| AppOrder.Remove | overlaybd/FastCDC-c/uthash.h:472-482 | the list closed up, with its new head and tail |
| HashSort.Sort | overlaybd/FastCDC-c/uthash.h:903-985 | terminates for every list and total preorder, leaving a permutation, sorted stably, with prev mirroring next, head first and tail last |
| HashSort.MergePass | overlaybd/FastCDC-c/uthash.h:912-974 | one pass merges neighbouring runs of the given length pairwise, and counts one merge at most exactly when the list fits in two runs |
| HashSort.MergeRuns | overlaybd/FastCDC-c/uthash.h:929-971 | merges two runs of one list while relinking it, taking the left one on ties |
| HashSort.SkipRun | overlaybd/FastCDC-c/uthash.h:919-927 | the end of the left run and its length |
| StableOrder.MergeSorted | overlaybd/FastCDC-c/uthash.h:929-971 | merging two stably sorted runs is stably sorting their concatenation |
| StableOrder.MergeInsert | overlaybd/FastCDC-c/uthash.h:929-971 | an ordered insertion into the right run can be made after the merge |
| StableOrder.PassDoublesRuns | overlaybd/FastCDC-c/uthash.h:912-984 | a pass over sorted runs of length k leaves sorted runs of length 2k |
| StableOrder.InsertAllSortsStably | overlaybd/FastCDC-c/uthash.h:903-985 | one-at-a-time ordered insertion sorts, and keeps equal items in arrival order |
| Bloom.AddRemembers | overlaybd/FastCDC-c/uthash.h:206-213 | no false negatives: the added item and every earlier one test positive |
| Bloom.PositiveIff | overlaybd/FastCDC-c/uthash.h:206-213 | after an add exactly the values with its bit, and the earlier positives, test positive; an empty filter has none |
| Bloom.ByteLenFits | overlaybd/FastCDC-c/uthash.h:187-188 | the vector has room for every bit, and no whole byte to spare |
| FastCDC.Chunker.Init | overlaybd/FastCDC-c/fastcdc.c:239-250 | the doubled table and the three sizes |
| FastCDC.Chunker.CdcOrigin | overlaybd/FastCDC-c/fastcdc.c:371-390 | the first position from MinSize at which no bit of the 8 KB mask is set in the sum of the shifted gear words, or the end |
| FastCDC.Chunker.NormalizedChunking | overlaybd/FastCDC-c/fastcdc.c:253-288 | the first position from 6144 at which no bit of the 32 KB mask, or from 8192 on of the 2 KB mask, is set, or the end; MinSize is overwritten |
| FastCDC.Chunker.RollingTwoBytes | overlaybd/FastCDC-c/fastcdc.c:341-369 | the same cut as the one-byte scan from twice MinSize_divide_by_2, except that an odd last byte is never examined; and so the first clear position among the others |
| FastCDC.Chunker.NormalizedTwoBytes | overlaybd/FastCDC-c/fastcdc.c:290-339 | the same cut as normalized_chunking_64 on every buffer, except that an odd last byte is never examined; and so the first clear position among the others |
| FastCDC.PairScan | overlaybd/FastCDC-c/fastcdc.c:353-363 | a two-byte step tests what two one-byte steps test |
| FastCDC.MasksFit | overlaybd/FastCDC-c/fastcdc.c:99-104 | the shifted masks are the masks doubled, with no bit lost |
| FastCDCFacts.RollingAgreesIff | overlaybd/FastCDC-c/fastcdc.c:341-369 | after init or a normalized chunker, the two-byte form agrees with cdc_origin_64 on all buffers exactly while MinSize is still 2 * MinSize_divide_by_2 |
| FastCDCFacts.StaleHalfCutsEarly | overlaybd/FastCDC-c/fastcdc.c:343-347 | bytes 35 and 91 at 2048 and 2049 are cut below the overwritten MinSize |
| FastCDCFacts.HitIsLocal | overlaybd/FastCDC-c/fastcdc.c:267-275 | past the first 47 scanned bytes the test depends on the last 48 bytes only |
| FastCDCFacts.Resynchronise | overlaybd/FastCDC-c/fastcdc.c:381-387 | two running chunks with a shared tail, both uncut at a hit past their first window, cut there, and everything after is chunked alike |
| FastCDCFacts.MasksNested | overlaybd/FastCDC-c/fastcdc.c:102-104 | each mask is part of the next, and all lie below bit 48 |
| FastCDCFacts.NormalizedIsBetween | overlaybd/FastCDC-c/fastcdc.c:267-285 | the normalized cut lies between the cuts of the pure scans with its two masks |
| FastCDCFacts.NormalizedAgainstOrigin | overlaybd/FastCDC-c/fastcdc.c:253-288 | from the same start, a normalized hit before 8192 means the origin scan cuts no later, and an origin hit from 8192 on means the normalized scan cuts no later |
| FastCDCFacts.SmallerMasksCutEarlier | overlaybd/FastCDC-c/fastcdc.c:381-387 | a scan whose masks are parts of another scan's cuts no later |
| FastCDCFacts.NextChunk | overlaybd/FastCDC-c/fastcdc.c:253-390 | any chunker on the remaining bytes returns a length inside them, at most MaxSize, and at least 2048 unless it is all of them |
| FastCDCFacts.ChunkAll | overlaybd/FastCDC-c/fastcdc.c:224-390 | after init, any mix of chunkers ends, the chunks join to the input, all but the last are between 2048 and 32768 bytes, and MinSize is 2048 or 6144 |
| GearBits.DoubledTest | overlaybd/FastCDC-c/fastcdc.c:356-357 | testing a doubled word against a doubled mask is testing the word |
| GearBits.ClearIff | overlaybd/FastCDC-c/fastcdc.c:270 | the test holds exactly when no bit of the mask is set in the fingerprint |
| FastCDC.FpIsWindow | overlaybd/FastCDC-c/fastcdc.c:268 | a fingerprint is the sum of the gear words, each shifted by the bytes after it, modulo 2^64 |
| Download.BkDownload.DownloadBlob | overlaybd/src/bk_download.cpp:129-207 | one more attempt and one try fewer, wrapping from 0; a failing ftruncate goes unnoticed; with faithful I/O the file becomes the source except in the skipped blocks |
| Download.BkDownload.FillBlocks | overlaybd/src/bk_download.cpp:162-206 | the offset loop ends, keeps a file of the right size that size, and with faithful I/O computes the fetched file |
| Download.BkDownload.ReadBlock | overlaybd/src/bk_download.cpp:177-192 | at most two reads, and two if both fail; a read that does not fail fills the front of the buffer and keeps the rest |
| Download.BkDownload.WriteBlock | overlaybd/src/bk_download.cpp:193-202 | at most two writes, and two if it fails; writing as much as was read counts as success |
| Download.BkDownload.DownloadDone | overlaybd/src/bk_download.cpp:64-99 | commits the file exactly when its digest is right and the rename works; a wrong digest forces the next attempt |
| Download.BkDownload.Download | overlaybd/src/bk_download.cpp:101-114 | true exactly when the commit file is there; a new one has the digest; the switch only goes to a commit file |
| Download.SwitchFile.SetSwitchFile | overlaybd/src/switch_file.cpp:77-100 | reads move to the commit file if it opens, and otherwise stay where they were |
| Download.SwitchFile.Pread | overlaybd/src/switch_file.cpp:117-124 | the bytes of the local file once there is one, those of the remote file until then, cut at its end |
| Download.ForcedFetch | overlaybd/src/bk_download.cpp:162-206 | a forced attempt rewrites every byte, whatever the file held |
| Download.UnforcedFetch | overlaybd/src/bk_download.cpp:167-175 | an attempt that skips blocks ends with the source bytes exactly when no skipped block was stale, holes being reported to the byte |
| Download.AlignedWriteIsExact | overlaybd/src/bk_download.cpp:167-175 | where the block size is a multiple of the file system's block, the writes of an attempt mark exactly the bytes they write |
| Download.UnalignedWriteSkips | overlaybd/src/bk_download.cpp:167-175 | where it is not, writing a block can make the next one look downloaded |
| DownloadQueue.BkDownloadProc | overlaybd/src/bk_download.cpp:209-263 | with other threads in the way any finite number of times: ends; on every exit path each download is deleted exactly once and started no more often than its counter allows; new commit files match a digest; with faithful I/O two tries always end with the layer committed and read locally |
| DownloadQueue.RetryLoop | overlaybd/src/bk_download.cpp:218-252 | the loop over the queue: each download is in the queue or deleted, tries and attempts add up, and it ends by allowed attempts, length and the contention left |
| DownloadQueue.Turn | overlaybd/src/bk_download.cpp:225-250 | without the lock nothing happens; with it the lock is released again, and failing takes a started attempt |
| DownloadQueue.LockFile | overlaybd/src/bk_download.cpp:116-123 | true exactly when the directory was free, and taken then |
| DownloadQueue.UnlockFile | overlaybd/src/bk_download.cpp:125-127 | the directory is free, whoever held it |
| DownloadQueue.ForcedOutcome | overlaybd/src/bk_download.cpp:162-206 | a forced faithful attempt fetches the layer |
| DownloadQueue.FirstOutcome | overlaybd/src/bk_download.cpp:167-175 | a first faithful attempt fetches the layer exactly when no skipped block is stale |
| DownloadQueue.CommittedIsLayer | overlaybd/src/bk_download.cpp:87-93 | where digests identify layers, a new commit file is the layer |
| DownloadQueue.ReadAfterDownload | overlaybd/src/switch_file.cpp:117-124 | with faithful I/O a read after the thread has run returns the bytes of the commit file, which are those of the layer |
| DownloadThreads.RunIsSafe | overlaybd/src/bk_download.cpp:209-263 | in every run of any number of threads with arbitrary reads, writes, failures and closings, and no download destroyed while another holds its directory: one downloader a directory, right and lasting commit files, one-way switches |
| DownloadAccounts.RunConserves | overlaybd/src/bk_download.cpp:209-263 | over every run, contended or not and careful or not: each download is queued, in hand or deleted as often as it was there at the start, and its attempts and tries add up in 32 bits |
| DownloadAccounts.AllExitedAllDeleted | overlaybd/src/bk_download.cpp:239-261 | when all threads have exited, each download has been deleted exactly once |
| DownloadAccounts.AttemptBoundIff | overlaybd/src/bk_download.cpp:131 | a queued download never starts more often than its initial tries, in any run, exactly when it has tries to begin with or its commit file is there |
| DownloadAccounts.RunBounded | overlaybd/src/bk_download.cpp:244 | attempts and tries of a download keep adding up to its initial tries, and it waits for an attempt only while it has some |
| DownloadAccounts.CanStart | overlaybd/src/bk_download.cpp:225-235 | a thread can start any download of its queue whose directory has no commit file, even one with no tries |
| DownloadAccounts.ZeroTriesWrap | overlaybd/src/bk_download.cpp:131 | with no tries, a failed attempt leaves 0xFFFFFFFF of them and the download queued again |
| DownloadThreads.InvKept | overlaybd/src/bk_download.cpp:58-127 | each step keeps the locks, the exclusion, verified files verified and local reads backed by a commit file |
| DownloadThreads.StepCommits | overlaybd/src/bk_download.cpp:64-99 | a commit file that a step makes has the digest of a download of its directory |
| DownloadThreads.SwitchesWhenOpen | overlaybd/src/switch_file.cpp:77-100 | a download reads locally exactly from the switch on that found its commit file and could open it |
| DownloadThreads.DeleteQueuedKeepsLocks | overlaybd/src/bk_download.h:41-44 | destroying a queued download keeps the locks exactly when nobody is working on its directory |
| DownloadThreads.CarelessRunBreaks | overlaybd/src/bk_download.h:41-44 | without the proviso: three downloads of one directory, and a commit file with the wrong digest |
| TraceFormat.RecordRoundTrip | overlaybd/src/prefetch.cpp:203-208 | decoding an encoded record gives it back |
| TraceFormat.HeaderRoundTrip | overlaybd/src/prefetch.cpp:210-214 | decoding an encoded header gives it back |
| TraceFormat.RecordLayout | overlaybd/src/prefetch.cpp:203-208 | the operation at 0, and little-endian words at 4, 8 and 16 |
| TraceFormat.HeaderLayout | overlaybd/src/prefetch.cpp:210-214 | little-endian words at 0, 8 and 16 |
| TraceFile.CutReloads | overlaybd/src/prefetch.cpp:235-324 | a dump cut off after any byte reloads to no records or to all of them, to none while the body is incomplete, and to all at the end |
| TraceFile.DumpReadIff | overlaybd/src/prefetch.cpp:289-324 | with a read that fails, a dump cut off anywhere is read as all its records or none exactly when its body is incomplete or no read of a record after the first fails |
| TraceFile.FailedReadLeavesPart | overlaybd/src/prefetch.cpp:306-309 | otherwise the queue is a proper, non-empty front part that no checksum covers |
| TraceFile.AllOrNothingIff | overlaybd/src/prefetch.cpp:289-324 | the same condition for any file |
| TraceFile.SumIsRunning | overlaybd/src/prefetch.cpp:260-261 | the checksum is the last of the running values, from 0, over the records |
| TraceFile.Prefetcher.Dump | overlaybd/src/prefetch.cpp:235-287 | dumps once; killed, failed or finished, the file reloads to all the records or none, and an OK file is made only over all; when every call succeeds the file is complete, the lock is gone, the OK file is there and the result is 0 unless there was one |
| TraceFile.Prefetcher.DumpOpen | overlaybd/src/prefetch.cpp:253-286 | the same of an open file; after a failed write the file is emptied |
| TraceFile.Prefetcher.ReloadFile | overlaybd/src/prefetch.cpp:289-324 | for any read that fails, the queue is what that file and that read leave; success means what the file reloads to |
| TraceFile.Prefetcher.constructor | overlaybd/src/prefetch.cpp:67-94 | the mode, the lock file of a recording, and the queue of a replay, whichever read fails |
| TraceFile.Prefetcher.RecordTrace | overlaybd/src/prefetch.cpp:129-136 | one more record, unless recording has stopped |
| TraceProtocol.RunIsSafe | overlaybd/src/prefetch.cpp:96-136 | in every interleaving that starts without an OK file: at most one dump, the file reloads to all accepted records or none, and a collector that saw the OK file gets all of them after recording has stopped |
| TraceProtocol.TruthfulIffNoStaleOk | overlaybd/src/prefetch.cpp:240-242 | every collector that sees the OK file gets the full trace, in all runs, exactly when no OK file was there at the start |
| TraceProtocol.StaleOkMisleads | Accelerated_Container_Image/cmd/ctr/record_trace.go:413-441 | with an OK file left over, the collector returns before anything is dumped |
| TraceProtocol.InvKept | overlaybd/src/prefetch.cpp:235-341 | every step of recorder, watcher, destructor, collector and of the dump, byte by byte, keeps the protocol invariant |
| TraceProtocol.HandshakeCompletes | overlaybd/src/prefetch.cpp:326-341 | once the lock file is gone, a sleeping watcher can always publish every accepted record |
| TraceProtocol.DestructorPublishes | overlaybd/src/prefetch.cpp:96-103 | so can the destructor, with the lock file there or not |
| TraceProtocol.CollectorFinds | Accelerated_Container_Image/cmd/ctr/record_trace.go:424-441 | a collector finds a published trace the next time it looks, and gives up exactly when its time is over |
| TraceProtocol.AcceptedAreOffered | overlaybd/src/prefetch.cpp:129-136 | the accepted records are those offered before recording stopped, in order, in every run |
| TraceProtocol.StopsForAReason | overlaybd/src/prefetch.cpp:326-337 | recording stops only once the lock file has gone or the destructor has been called |
| Wakeup.RunCoalesces | overlaybd/src/main.cpp:233-249 | in every interleaving: at most one waker, one exactly while wake-ups are pending, every processing_complete call has a new completion to report, and the counter says which completions are not reported yet |
| Wakeup.QuiescentIsClean | overlaybd/src/main.cpp:233-250 | with all handlers done nothing is pending or in flight and every completion has been followed by a processing_complete call |
| Wakeup.EveryCommandReported | overlaybd/src/main.cpp:282-283 | with all handlers done, every accepted command has been completed exactly once and reported after that |
| Wakeup.CommandsAccounted | overlaybd/src/main.cpp:277-286 | in every run: one handler for each accepted command, one completion unless it is at work, and in flight what is accepted and not done |
| Wakeup.HandlersFinish | overlaybd/src/main.cpp:236-247 | without new commands every run is bounded, and until all are done some handler can go on |
| Wakeup.InvKept | overlaybd/src/main.cpp:233-250 | each step between yields keeps the invariant |
| Base64.EncodeBase64 | overlaybd/src/overlaybd/base64.h:18-56 | the loop computes the encoding by groups of 24 bits |
| Base64.DecodeBase64 | overlaybd/src/overlaybd/base64.h:58-99 | the loop decodes the leading letters by groups, and the tail to its whole bytes only |
| Base64.RoundTrip | overlaybd/src/overlaybd/base64.h:18-99 | decoding an encoded byte string gives it back, for all lengths |
| Base64.EncodedShape | overlaybd/src/overlaybd/base64.h:18-56 | 4 * ceil(n / 3) characters, of which just the padding is not in the alphabet |
| Base64.DecodeKeepsIffCanonical | overlaybd/src/overlaybd/base64.h:58-99 | encoding a decoded string gives it back exactly for canonical encodings |
| Base64.Sextets | overlaybd/src/overlaybd/base64.h:28-31 | the masks and shifts of the bytes pick the four sextets of the group |
| Base64.ToThree | overlaybd/src/overlaybd/base64.h:73-75 | the shifts of the sextets, cut to 8 bits, are the bytes of the group wherever both sextets are real |
| Base64.LetterFound | overlaybd/src/overlaybd/base64.h:14-16 | is_base64 accepts exactly the alphabet, and find inverts it |

## Left out

- HASH_SELECT: it needs several handles in one element and does not advance the destination's `tail`.
- The hash functions, `hho` pointer offsets, key lengths and memory comparison: the hash is any function of the key, and keys are compared for equality.
- Duplicate keys: expansion reverses chains, so which of two equal keys is found is not fixed; adds require a key that no item of the table has.
- Unsigned overflow of `count`, `num_items`, `expand_mult` and the sort's run length: they are unbounded naturals.
- Fatal out-of-memory mode, and freeing of memory: allocation success is a parameter; a failed expansion is the recoverable kind.
- HashTable.HashTable.MakeTable: the three allocations it makes succeed or fail together, decided by the caller's `tableOk`.
- HASH_EMIT and key logging, convenience macros for strings and integers.
- The 32-bit tables and masks of the chunkers, their MD5 seed, and the `main` program with its refill arithmetic.
- The gear table: any 256 words; only entries 35 and 91 are given their values, where a concrete cut is shown.
- The tar and zfile adaptors that a SwitchFile opens: opening either works, and reads the commit file, or does not.
- Throttling, audit, delays before and between downloads, and the SHA-256 thread: the digest is any function, and injectivity is assumed only where a digest must identify a layer.
- DownloadQueue.BkDownloadProc: other threads only take and release locks here, finitely often; what they do to the files is in DownloadThreads.
- DownloadThreads.RunIsSafe: safety only; with contended locks a thread may rotate its queue for ever.
- Download.UnforcedFetch: holes are reported to the byte; on a file system with blocks this needs a block size that is a multiple of theirs (`AlignedWriteIsExact`). The two-attempt result does not depend on it.
- Download.BkDownload.DownloadBlob: after a failing `ftruncate` nothing is promised about the length of the file; a wrong one fails the digest.
- Padding bytes in the trace structures: zeros, though the code leaves them undefined; and the CRC: any function of the running value and the next bytes.
- TraceFile.Prefetcher.ReloadFile: the size that `stat` reported is taken to be the length of the file that is read.
- Replaying: the worker threads, their source files and the DynamicPrefetcher's walk of a file list.
- Wakeup: what a handler does before its command completes, and the 32-thread pool; counters are unbounded.
- Base64: locales in which `isalnum` accepts more than ASCII letters and digits.
- Image files and services, the registry, metrics, configuration, the snapshotter and the converter.
