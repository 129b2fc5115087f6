# tinydbms: verified models

tinydbms is a small SQL engine: a storage stack (buffer pool, slotted pages, record codec, page files, heap
tables, file leases) under a query stack (splitter, lexer, parser, semantic analysis, optimizer, planner, plan
validator, executor) and a script runner. This project models the parts of it whose correctness is hard to see
from one function at a time, in Dafny, and proves what they promise.

- **Buffer pool.** `PoolState` is a step system with one step per lock region and per unlocked I/O, loads in
  flight, waiters and guards included; `PoolInvariant` to `PoolTheorems` prove structure and cache coherence over
  every interleaving; `PoolOutcomes` and `PoolProgress` say, without the steps' own definitions, when a load commits
  and that undisturbed fetches are served; `BufferPool.dfy` is the class whose methods are proved to take exactly
  those steps. `flush_frame_locked` ignores reservations, so a flush of a frame whose write-back is in flight would break
  coherence: `PoolHazard` reaches that situation in the step system and `FlushIsSafeExactly` gives the exact
  condition, guards in the middle of an update included. The repository's contract rules it out (README.md:3 there:
  storage callers are serialised, and prefetch takes only clean victims): `PoolSerial` proves coherence over all
  runs that respect it, with no condition on write-backs.
- **Pages, records, heap tables.** `Tiling` to `PageRuns` (slotted page bytes as a map from handle to payload),
  `Utf8` to `CodecLoops` (the row codec as a bijection), `HeapModel` to `HeapRuns` (a map from record id to row);
  `Layouts` and `PageFormats` give every stored byte its place and meaning.
- **Page files and leases.** `FreeList` to `PageFileObject` (free-list allocation, order of writes), `Leases`,
  `LeaseOutcomes`.
- **Queries.** `Parser`, `Binding`, `Optimizer`, `Pipeline`, `Select*`, `Writes`, `Mutations` (acceptance and
  meaning from parsed statement to executed plan); `SqlMeaning` defines the answer of a SELECT over names, with no
  plan, slot or analysis, and `SqlNames` to `SqlTheorem` prove that the compiled plan gives it, `SqlLegal` which
  statements analysis accepts, `SqlSuccess` when the answer exists; `Doubles` and `Comparisons` anchor comparison and
  sorting in the plain order of integers, numbers and texts; `OptimizerForms` says how far the optimizer goes; `Keys`, `JoinKeys`,
  `HashJoin`, `Grouping`, `GroupTheorems`, `Sorting`, `Ordering`, `Executor` (hashing executors against simple ones); `Outcomes`, `FiniteData`,
  `StatementEnds`, `SortFaults`, `Statements` (how a statement ends over a storage that may fail at every call).
- **Around them.** `Splitter`, `Lexer`, `SplitLex`, `SqlTokens`, `SqlSpelling`, `SqlText`, `SqlScript` (from text to
  tokens and back), `CreateTables`, `Catalogs`, `Scripts`, `ScriptOutcomes`, `DatabaseSlot`, `EditDistance`.

DOUBLE values are 64-bit patterns with IEEE comparison and round-half-even conversion from integers defined on
the patterns. `std::hash` is an arbitrary function. Outcomes of reads, writes, allocation, storage calls,
cancellation and exceptions are parameters, quantified over in every theorem. Class methods are proved against
specification functions of the old state; the theorems are about those functions.

Where code and comments differ the code is followed. Four promises hold only under a condition, which is proved
exact:

- flushing, as above;
- statement ranges in texts with lone carriage returns (`SplitRangesAccepted`; a refused text: `LoneReturnIsRefused`);
- plan acceptance: the parser's budget admits statements whose plans reach the executor's limit of 256 levels
  (`SelectIsAccepted`; a refused statement: `DeepStatementIsRefused`);
- no internal errors for analyzed statements: a sort key that is not finite is one (`SelectEndsInternally`, and on
  stored data `PlainOrderFailsExactly`; a failing query: `InfinityFails`). The record codec refuses such numbers in
  both directions, and over data without them no statement meets one (`SelectEndsWell`, `StatementEndsWell`).

## Model

| member | source | states |
|---|---|---|
| `PoolTheorems.StepKeepsInv` | src/storage/buffer_pool.cpp:248-927 | Every lock region, every read or write made without the lock, and every guard operation keeps structure and coherence: page table and loading table are disjoint, READY/LOADING frames and page-table entries correspond one to one, a READY frame's pin count is the number of its live guards, the replacer lists exactly the READY frames once each, fetches = hits + misses, evictions = clean + dirty commits |
| `PoolTheorems.RunKeepsInv` | src/storage/buffer_pool.cpp:406-927 | The same in every state reachable by any interleaving of fetchers, guard writers, prefetches, waits, failed or cancelled replacements, flushes, releases and close |
| `PoolTheorems.ReadersSeeLastWrite` | src/storage/buffer_pool.cpp:248-268 | Cache coherence over every run from a fresh pool: the READY frame's bytes, or the disk's when the page is not resident, are the last value written through a guard |
| `PoolTheorems.LogicalIsLastWrite` | src/storage/buffer_pool.cpp:379-390 | The logical content the invariant speaks of is defined by the history alone: the last guard write of the run, or the initial disk |
| `PoolTheorems.CloseLeavesLastWrites` | src/storage/buffer_pool.cpp:899-927 | A run that ends with a successful close leaves every page's last written value on disk |
| `PoolTheorems.GuardKeepsFrameAndKey` | src/storage/buffer_pool.cpp:370-396 | A guard that is live before and after any run holds the same frame, READY, with the same page at both ends |
| `PoolTheorems.FetchReturnsItsPage` | src/storage/buffer_pool.cpp:406-490 | Any step that hands out a guard (hit, wake after waiting, or any of the three commits) hands it out for the page that was asked for, on a READY frame that holds that page |
| `PoolTheorems.GuardFrameIsPinned` | src/storage/buffer_pool.cpp:370-396 | The checks of mark_dirty, unpin and pin_count never fail for a live guard |
| `PoolTheorems.CommitInsertsFreshKey` | src/storage/buffer_pool.cpp:661-683 | A load that takes the lock again finds its reservation and victim still its own and its page in no frame, so the page-table insertions of a commit cannot fail and the terminate calls are unreachable |
| `PoolTheorems.ReplacerHasRoom` | src/storage/buffer_pool.cpp:46-56 | record_load always finds room in the capacity reserved at construction |
| `PoolTheorems.ReleaseFlushIsSafe` | src/storage/buffer_pool.cpp:324-360 | The tests of release_table and close exclude every write-back in flight, so their flushes are safe |
| `PoolTheorems.FlushIsSafeExactly` | src/storage/buffer_pool.cpp:248-268 | flush_frame_locked ignores reservations: a flush keeps every continuation coherent if and only if no write-back of that frame can still land or commit, or some guard of the frame is in the middle of an update (its mark_dirty makes the frame dirty again) |
| `PoolHazard.FlushHazardIsReachable` | src/storage/buffer_pool.cpp:696-780 | The excluded situation really occurs: a concrete run reaches a flushable frame whose write-back is in flight |
| `PoolSerial.RunByDemand` | src/storage/buffer_pool.cpp:577-581 | In every run only demand fetches replace dirty victims: prefetch reserves clean ones |
| `PoolSerial.SerialFlushIsSafe` | README.md:3-3 | A flush issued while no demand fetch is in flight meets no write-back, so serialised callers never meet the hazard |
| `PoolSerial.SerialRunsAreRuns` | README.md:3-3 | Every run in which flushes happen only between fetches, with no condition on write-backs, is a run of the step system |
| `PoolSerial.SerialReadersSeeLastWrite` | src/storage/buffer_pool.cpp:248-268 | Cache coherence over every such run: under the callers' contract what a reader sees of a page is the last value written through a guard |
| `PoolFinish.FreeLoadIsNeverStale` | src/storage/buffer_pool.cpp:537-548 | The staleness test after a read into a FREE frame never fails |
| `PoolFinish.VictimLoadIsNeverStale` | src/storage/buffer_pool.cpp:626-660 | A replacement still owns its reservation and its victim when it takes the lock again |
| `PoolOutcomes.FreeLoadOutcome` | src/storage/buffer_pool.cpp:532-572 | A load into a FREE frame succeeds exactly when its read did: its page is then READY in that frame with the bytes read and a demand load has exactly one new guard on it; a failed read gives frame and mapping back |
| `PoolOutcomes.CleanReplacementOutcome` | src/storage/buffer_pool.cpp:626-694 | A clean replacement commits exactly when the pool is open, the read succeeded and the victim is still clean, unpinned and of the recorded generation: then the old page is gone, the new one READY in the frame with the bytes read, the completion done and not failed, and a demand load has one new guard; in every other case the victim stays and nobody gets a guard |
| `PoolOutcomes.SnapshotOutcome` | src/storage/buffer_pool.cpp:731-778 | The write-back starts exactly when the victim is still dirty, unpinned and of the recorded generation, with its bytes and generation of that moment; otherwise the load is withdrawn |
| `PoolOutcomes.DirtyReplacementOutcome` | src/storage/buffer_pool.cpp:806-856 | A dirty replacement commits exactly when the write-back landed, the pool is open and the victim is still dirty, unpinned and untouched since the copy; otherwise the victim stays |
| `PoolOutcomes.ReadOutcome` | src/storage/buffer_pool.cpp:518-529 | A read delivers the bytes the disk holds under the load's page, exactly when it succeeds and the page exists |
| `PoolOutcomes.WriteBackOutcome` | src/storage/buffer_pool.cpp:780-804 | A write-back that succeeds puts the copied bytes under the victim's page and nowhere else |
| `PoolProgress.FetchOutcome` | src/storage/buffer_pool.cpp:406-607 | What a fetch does in every state: refuse when closed or for page 0; one guard and one pin on a READY frame unless the pin limit is reached; wait for the load under way; start a load on the lowest FREE frame; otherwise on the first frame in replacer order that is READY, unpinned, unreserved and, for a prefetch, clean; otherwise fail |
| `PoolProgress.WakeOutcome` | src/storage/buffer_pool.cpp:467-489 | A blocked fetch gets its page exactly when the load succeeded and the page is still READY under the load's ticket; otherwise it fails, or starts over when it waited for a prefetch |
| `PoolProgress.GuardWriteOutcome` | src/storage/buffer_pool.cpp:228-231 | A write through a guard changes the bytes of its frame and what readers of its page are to see, and nothing else |
| `PoolProgress.MarkDirtyOutcome` | src/storage/buffer_pool.cpp:379-390 | mark_dirty sets the flag of the guard's frame, with a new generation for a reserved one, and nothing else |
| `PoolProgress.UnpinOutcome` | src/storage/buffer_pool.cpp:370-378 | The end of a guard takes exactly one pin from its frame |
| `PoolProgress.FlushOutcome` | src/storage/buffer_pool.cpp:248-268 | A flush writes the frame's bytes under its own page; only a successful one makes the frame clean |
| `PoolProgress.ReleaseOutcome` | src/storage/buffer_pool.cpp:324-360 | Releasing a table frees exactly its frames and forgets exactly its pages; the others keep their places and order |
| `PoolProgress.CloseOutcome` | src/storage/buffer_pool.cpp:899-927 | Closing leaves only FREE frames, an empty table and a closed pool, in which FetchOutcome says every fetch is refused |
| `PoolProgress.ColdFetchIsServed` | src/storage/buffer_pool.cpp:491-572 | From every reachable state with a FREE frame, an undisturbed fetch whose read succeeds ends with one new guard that reads what was last written to the page |
| `PoolProgress.CleanFetchIsServed` | src/storage/buffer_pool.cpp:585-694 | From every reachable full state whose first victim is clean, an undisturbed fetch evicts that page and no other and ends with such a guard |
| `PoolProgress.DirtyFetchIsServed` | src/storage/buffer_pool.cpp:696-856 | From every reachable full state whose first victim is dirty, an undisturbed fetch leaves the victim's last write on disk, evicts that page and no other and ends with such a guard |
| `PoolProgress.ResidentFetchIsServed` | src/storage/buffer_pool.cpp:428-443 | A fetch of a page in a READY frame below the pin limit is served at once |
| `PoolProgress.FullFetchFails` | src/storage/buffer_pool.cpp:576-584 | A fetch without a FREE frame and without a victim fails and changes nothing but the counters |
| `PoolProgress.WaiterIsServed` | src/storage/buffer_pool.cpp:467-489 | Whoever waited for a load that ends well gets a guard that reads the page's last write when it wakes up |
| `BufferPools.RemoveFrame` | src/storage/buffer_pool.cpp:46-56 | The replacer's search-and-erase removes the first occurrence and keeps the order of the others |
| `BufferPools.FindFree` | src/storage/buffer_pool.cpp:491-493 | The scan finds the lowest FREE frame |
| `BufferPools.FindVictim` | src/storage/buffer_pool.cpp:576-584 | The scan in replacer order finds the first eligible frame; for a prefetch only clean ones |
| `BufferPools.BufferPool.PinFrame` | src/storage/buffer_pool.cpp:428-443 | The hit path is the Pin step: new generation for a reserved frame, one guard, LRU reordering, refusal at the pin limit |
| `BufferPools.BufferPool.MissPage` | src/storage/buffer_pool.cpp:449-607 | The rest of the loop body is the Miss step: wait, take a FREE frame, reserve a victim, or give up |
| `BufferPools.BufferPool.ReserveFreeFrame` | src/storage/buffer_pool.cpp:493-515 | Reserving a FREE frame is the ReserveFree step |
| `BufferPools.BufferPool.ReserveVictimFrame` | src/storage/buffer_pool.cpp:592-607 | Publishing a clean or dirty reservation is the ReserveVictim step |
| `BufferPools.BufferPool.FinishFreeLoad` | src/storage/buffer_pool.cpp:532-572 | The lock region after the read into a FREE frame is the FinishFree step: publish and grant, or drop |
| `BufferPools.BufferPool.SwapFrame` | src/storage/buffer_pool.cpp:661-683 | The commit swaps keys, page, ticket and replacer position together |
| `BufferPools.BufferPool.FinishCleanLoad` | src/storage/buffer_pool.cpp:626-694 | The lock region after the read for a clean victim is the FinishClean step, whose commit condition and effects are CleanReplacementOutcome's |
| `BufferPools.BufferPool.SnapshotVictim` | src/storage/buffer_pool.cpp:731-780 | The lock region after the read for a dirty victim is the SnapshotDirty step |
| `BufferPools.BufferPool.FinishDirtyLoad` | src/storage/buffer_pool.cpp:806-856 | The lock region after the write-back is the FinishDirty step |
| `BufferPools.BufferPool.AttemptPage` | src/storage/buffer_pool.cpp:420-467 | One turn of load_page's loop is the Attempt step |
| `BufferPools.BufferPool.LoadPage` | src/storage/buffer_pool.cpp:406-420 | The entry of load_page is the Begin step: closed pool and page 0 are refused, demand fetches counted |
| `BufferPools.BufferPool.ResumeFetch` | src/storage/buffer_pool.cpp:467-490 | A woken fetcher takes the Wake step: pin what was published, retry after a failed prefetch, or fail |
| `BufferPools.BufferPool.MarkFrameDirty` | src/storage/buffer_pool.cpp:379-390 | mark_dirty sets the dirty flag and bumps the generation of a reserved frame |
| `BufferPools.BufferPool.UnpinFrame` | src/storage/buffer_pool.cpp:370-378 | unpin removes one guard and one pin |
| `BufferPools.BufferPool.FlushFrame` | src/storage/buffer_pool.cpp:248-268 | A flush writes a READY dirty frame and clears its flag only if the write succeeds |
| `BufferPools.BufferPool.FlushFrames` | src/storage/buffer_pool.cpp:276-281 | The flush loop flushes the frames in scope in order and stops at the first failed write |
| `BufferPools.BufferPool.ClosePool` | src/storage/buffer_pool.cpp:899-927 | close succeeds if and only if nothing is loading, pinned or reserved and every write lands; then all pages are on disk and all frames are free; otherwise only flushes happened |
| `BufferPools.BufferPool.ReleaseTable` | src/storage/buffer_pool.cpp:324-360 | release_table succeeds if and only if the table is unused and every write lands; then its pages are on disk and out of the pool; otherwise only flushes happened |
| `BufferPools.BufferPool.DropFrames` | src/storage/buffer_pool.cpp:350-358 | The commit loop erases exactly the table's frames from page table and replacer and resets them |
| `Tiling.SweepDecidesTiling` | src/storage/slotted_page.cpp:213-227 | Sorting and sweeping the live ranges succeeds if and only if every byte of the area has exactly one owner |
| `Tiling.TilingTotal` | src/storage/slotted_page.cpp:213-227 | Ranges that tile an area add up to its length |
| `SlottedPages.Validate` | src/storage/slotted_page.cpp:138-228 | validate accepts exactly the pages with a well-formed header and slots whose live payloads tile the area from free_upper to the page end |
| `SlottedPages.OwnedByte` | src/storage/slotted_page.cpp:213-227 | A byte with owner count one is held by one live slot and by no other; so on an accepted page every byte of the area is |
| `SlottedPages.PageSums` | src/storage/slotted_page.cpp:138-228 | Free space is determined by the cells: free_upper is the page size minus the live payload bytes |
| `SlottedPages.Initialize` | src/storage/slotted_page.cpp:122-136 | A fresh page is well formed and stores no cells |
| `SlottedPages.Get` | src/storage/slotted_page.cpp:294-313 | get returns exactly the payload stored under a live handle and refuses every other handle |
| `SlottedPages.NextLiveSlot` | src/storage/slotted_page.cpp:109-120 | The scan returns the first live slot from the start, and refuses a start beyond the directory |
| `SlottedUpdates.WrittenStores` | src/storage/slotted_page.cpp:230-292 | The bytes written by insert form a valid page with one more cell: the validation after them cannot fail |
| `SlottedUpdates.InsertRecord` | src/storage/slotted_page.cpp:230-292 | insert succeeds if and only if the payload fits; then the page stores the old cells plus the new one under the issued handle, otherwise it is unchanged |
| `SlottedCompaction.Rebuild` | src/storage/slotted_page.cpp:352-379 | The compaction loop copies every live payload into a fresh page that stores exactly the given cells |
| `SlottedCompaction.ReplaceRecord` | src/storage/slotted_page.cpp:315-385 | replace changes only the target's payload although compaction moves all bytes; each error in the order of the checks leaves the page unchanged |
| `SlottedCompaction.EraseRecord` | src/storage/slotted_page.cpp:387-448 | erase frees only the target; a slot at generation 65535 is retired |
| `PageCells.InsertContents` | src/storage/slotted_page.cpp:230-292 | Insertion adds exactly the entry of the next handle to the handle map |
| `PageCells.ReplaceContents` | src/storage/slotted_page.cpp:315-385 | Replacement updates one entry of the handle map |
| `PageCells.EraseContents` | src/storage/slotted_page.cpp:387-448 | Erasure removes one entry of the handle map, and issues nothing |
| `PageCells.NextHandleFresh` | src/storage/slotted_page.cpp:230-292 | The handle an insertion takes was never issued on this page |
| `PageRuns.RunRefinesMap` | src/storage/slotted_page.cpp:230-448 | Any run of insert, replace and erase from initialize gives the map from handle to payload that the same operations give on maps |
| `PageRuns.HandlesAreIssued` | src/storage/slotted_page.cpp:230-292 | The handles a run has returned are exactly those the page's slot generations show as issued |
| `PageRuns.HandlesNeverRepeat` | src/storage/slotted_page.cpp:387-448 | Over the whole life of a page no handle is returned twice |
| `PageRuns.RunBytes` | src/storage/slotted_page.cpp:122-448 | The same run on page bytes stores exactly the cells of the model and returns the same handles |
| `PageFormats.WellFormedIsFormat` | src/storage/slotted_page.cpp:11-88 | The pages validate accepts are exactly those of the byte format: magic, version, sizes and counts at their offsets, directory entries of eight bytes, every byte from free_upper on in one live record |
| `PageFormats.RecordBytes` | src/storage/slotted_page.cpp:294-313 | A live handle's record is the bytes its directory entry points at |
| `PageFormats.FitsExactly` | src/storage/slotted_page.cpp:230-292 | A record fits exactly when the page with it is one that can exist |
| `PageFormats.FitsReplacedExactly` | src/storage/slotted_page.cpp:315-385 | A replacement fits exactly when the page with it is one that can exist |
| `PageFormats.NextHandleIsLowest` | src/storage/slotted_page.cpp:230-260 | A new record takes the lowest free position that can be issued again, under the next generation, or else a new position |
| `Utf8.ValidIffWellFormed` | src/storage/record_codec.cpp:35-86 | The byte-class check accepts exactly the texts that are sequences of shortest-form encodings of Unicode scalar values (section 4 of RFC 3629) |
| `Utf8.IsValidUtf8` | src/storage/record_codec.cpp:35-86 | The codec's loop decides well-formedness |
| `Utf8.LexerIsValidUtf8` | src/compiler/lexer.cpp:92-151 | The lexer's loop, with its different case split, decides the same texts |
| `CodecBits.ReadsWhatWasWritten` | src/storage/record_codec.cpp:104-127 | Little-endian reads give back the written number |
| `CodecBits.WritesWhatWasRead` | src/storage/record_codec.cpp:104-127 | Little-endian writes give back the bytes that were read |
| `CodecBits.BitmapHolds` | src/storage/record_codec.cpp:250-258 | Each column's bit reads back as whether it is NULL, whatever bytes follow |
| `CodecBits.BitmapReadBack` | src/storage/record_codec.cpp:320-339 | Reading an accepted bitmap and writing it again gives the same bytes |
| `Layouts.IntegerByte` | src/storage/record_codec.cpp:104-112 | Byte k of a stored integer is v / 256^k % 256 |
| `Layouts.RowLayout` | src/storage/record_codec.cpp:240-288 | Where each value of an encoded row stands and what its bytes are: after the bitmap and the values before it, integers and doubles least significant byte first, BOOLEAN one byte 0 or 1, VARCHAR a four-byte length and the text |
| `Layouts.RowEnds` | src/storage/record_codec.cpp:240-288 | A row ends with its last value |
| `Layouts.BitmapLayout` | src/storage/record_codec.cpp:138-140 | Bit i of a V2 row is bit i % 8 of byte i / 8, set exactly when value i is NULL; spare bits are 0 |
| `RecordCodec.DecodeUndoesEncode` | src/storage/record_codec.cpp:240-436 | decode(encode(v)) = v for every accepted row, in both row formats |
| `RecordCodec.EncodeUndoesDecode` | src/storage/record_codec.cpp:240-436 | encode(decode(p)) = p for every accepted payload, in both row formats |
| `RecordCodec.Measure` | src/storage/record_codec.cpp:150-222 | The measuring loop with saturating sums accepts exactly the encodable rows and returns the exact encoded length; otherwise the first complaint in check order |
| `CodecLoops.Encode` | src/storage/record_codec.cpp:240-287 | The encoding loop writes the specified payload, of the measured length |
| `CodecLoops.DecodeRow` | src/storage/record_codec.cpp:294-436 | The decoding loop with its moving offset returns what the specification decodes, on every byte string |
| `FreeList.Walk` | src/storage/page_file.cpp:354-372 | The list walk ends on arbitrary bytes and finds the free list if and only if there is one: in range, acyclic, marked free |
| `PageFiles.Open` | src/storage/page_file.cpp:197-261 | open accepts exactly the files with a matching header and a well-formed free list |
| `PageFormats.FileHeaderBytes` | src/storage/page_file.cpp:35-75 | The header page: magic, version, head of the free list and page count at their offsets, least significant byte first |
| `PageFormats.FreePageBytes` | src/storage/page_file.cpp:343-353 | A free page carries its mark and the link to the next one |
| `PageFiles.ReuseIsCrashSafe` | src/storage/page_file.cpp:454-475 | Stopping after either write of a reuse leaves a file that opens with the new free list |
| `PageFiles.GrowIsCrashSafe` | src/storage/page_file.cpp:477-490 | Stopping after the first write of a growth leaves the old free list, after the second the new one |
| `PageFiles.FreeIsCrashSafe` | src/storage/page_file.cpp:498-529 | Stopping after the first write of a free leaves the old free list, after the second the page is on it |
| `PageFiles.LinkingFirstIsNotCrashSafe` | src/storage/page_file.cpp:498-529 | The order matters: with the header written first, a stop before the mark leaves a file that does not open |
| `PageFiles.AllocateMeaning` | src/storage/page_file.cpp:448-491 | Free list and pages in use partition the data pages, and an allocation moves exactly one page from the one to the other (or adds one) |
| `PageFiles.FreeMeaning` | src/storage/page_file.cpp:498-529 | A free moves exactly one page to the list |
| `PageFileObject.PageFile.AllocatePage` | src/storage/page_file.cpp:448-491 | Success, failure and poisoning of allocate_page for every outcome of its two writes; the object stays tied to a file that opens |
| `PageFileObject.PageFile.ReusePage` | src/storage/page_file.cpp:454-475 | The free-list branch returns the head of the list |
| `PageFileObject.PageFile.GrowFile` | src/storage/page_file.cpp:477-490 | The growth branch returns the page after the last; a failed write leaves count and list as they were |
| `PageFileObject.PageFile.WritePage` | src/storage/page_file.cpp:421-441 | write_page succeeds if and only if the object is usable, the page is in use and the write lands; the free list survives whatever the bytes are |
| `PageFileObject.PageFile.FreePageAt` | src/storage/page_file.cpp:498-529 | free_page succeeds if and only if the object is usable, the page is in use and both writes land |
| `PageFileObject.PageFile.IsFree` | src/storage/page_file.cpp:354-372 | is_free_page decides membership in the free list |
| `PageFileObject.PageFile.AllocationState` | src/storage/page_file.cpp:379-388 | page_allocation_state tells free pages from pages in use and refuses ids out of range |
| `HeapModel.RidRoundTrip` | src/storage/record_page.cpp:45-56 | Record ids survive the 64-bit form |
| `HeapModel.RidReadBack` | src/storage/record_page.cpp:45-56 | Every number that decodes is the encoding of its parts |
| `PageFormats.RecordIdBits` | src/storage/record_page.cpp:45-56 | A record id is page, generation and slot in this order, in 32, 16 and 16 bits |
| `HeapModel.InsertInto` | src/storage/record_page.cpp:61-72 | Inserting into a page adds one entry to the table's map under an id the table never issued |
| `HeapModel.ScanIsComplete` | src/storage/heap_table.cpp:57-91 | The scan order lists every live record exactly once, in page and slot order |
| `HeapRows.InsertRow` | src/storage/record_page.cpp:61-72 | Through the codec, one new row appears in the map from record id to row |
| `HeapRows.ReplaceRow` | src/storage/record_page.cpp:92-107 | Through the codec, exactly one row changes |
| `HeapRows.EraseRow` | src/storage/record_page.cpp:113-120 | Through the codec, exactly one row disappears, and no id is issued |
| `RecordPages.EncodeRow` | src/storage/record_page.cpp:61-72 | A row is encoded if and only if the codec accepts it, and reads back as itself |
| `RecordPages.ReplaceInPage` | src/storage/record_page.cpp:92-107 | A replacement succeeds if and only if the handle is live and the new payload fits beside the others |
| `HeapTables.HeapTable.FirstFit` | src/storage/heap_table.cpp:107-123 | The search stops at the first page with room or the first page that cannot be fetched |
| `HeapTables.HeapTable.CreatePage` | src/storage/heap_table.cpp:127-156 | A new page takes the row if and only if allocation, bootstrap and refetch succeed; every failure leaves rows and issued ids as they were |
| `HeapTables.HeapTable.Insert` | src/storage/heap_table.cpp:100-125 | insert_record succeeds if and only if the row is storable and a place is reached; then the map gains one id never issued in the table's life, otherwise nothing changes |
| `HeapTables.HealthyIsPlaceable` | src/storage/heap_table.cpp:100-156 | Over a pool and file that do not fail every storable row finds a place |
| `HeapTables.HeapTable.Delete` | src/storage/heap_table.cpp:169-188 | delete_record succeeds if and only if the record is live and its page can be fetched; then exactly that entry is gone |
| `HeapTables.HeapTable.Update` | src/storage/heap_table.cpp:218-234 | update_record succeeds if and only if the record is live, its page can be fetched and the new row fits there; then exactly that entry changes |
| `HeapTables.HeapTable.NextRecord` | src/storage/heap_table.cpp:57-91 | next_record returns the first live record from the position with its row, and the position behind it; bad positions are refused |
| `HeapTables.InsertBatch` | src/storage/heap_table.cpp:158-168 | Exactly the reported prefix is inserted, under different ids all new to the table; it stops only at an unstorable row or a failure below |
| `HeapTables.DeleteBatch` | src/storage/heap_table.cpp:189-197 | Exactly the reported prefix is gone; it stops only at a record that is not there or cannot be fetched |
| `HeapTables.ValidateUpdates` | src/storage/heap_table.cpp:236-246 | The first pass accepts exactly requests without repeated ids whose records exist and whose rows encode |
| `HeapTables.UpdateBatch` | src/storage/heap_table.cpp:236-256 | A request the first pass refuses changes nothing; otherwise exactly the reported prefix is updated |
| `HeapTables.ScanAll` | src/storage/heap_table.cpp:57-91 | A scan with no change in between yields every live record once, in order, with its row |
| `HeapRuns.RunHeap` | src/storage/heap_table.cpp:100-256 | Over every mix of insertions, deletions and updates the table is the map its callers were told, and no record id is handed out twice |
| `Leases.StepKeepsInv` | src/storage/file_manager.cpp:80-174 | Every lock region of acquire, release, open, create, close_table_file and close_all keeps the protocol's invariant |
| `Leases.RunKeepsInv` | src/storage/file_manager.cpp:80-174 | The invariant holds after every interleaving |
| `Leases.LeaseSafety` | src/storage/file_manager.cpp:127-174 | In every reachable state a leased table has its file present and unclosed, and neither terminate call is reached |
| `Leases.NoLeaseWhileClosing` | src/storage/file_manager.cpp:127-174 | In every interleaving an acquire grants nothing while some thread is inside close_table_file on that table or inside close_all; on an open table a lease is granted if and only if no thread is |
| `Leases.RefusedIffBeingClosed` | src/storage/file_manager.cpp:127-134 | What acquire_file tests, the closing set and the flag, says exactly whether some thread is closing |
| `Leases.ClosesUnleased` | src/storage/file_manager.cpp:144-174 | A file is closed or removed only while nobody holds a lease on it |
| `LeaseOutcomes.OpenOutcome` | src/storage/file_manager.cpp:76-111 | Opening leaves the table's file open unless some thread is closing it, and touches nothing else |
| `LeaseOutcomes.AcquireOutcome` | src/storage/file_manager.cpp:127-134 | One lease more, exactly on an open file that nobody is closing; no file changes |
| `LeaseOutcomes.CloseWaitsForLeases` | src/storage/file_manager.cpp:146-157 | A closing thread goes on exactly when no lease on its table is left |
| `LeaseOutcomes.CloseAllWaits` | src/storage/file_manager.cpp:163-167 | close_all goes on exactly when no lease is left and no thread is closing a single table |
| `LeaseOutcomes.TableIsClosed` | src/storage/file_manager.cpp:144-161 | An unleased open table that nobody is closing can be closed: all four regions are enabled in turn, and at the end the file is gone exactly when its own close succeeded and nothing else has changed |
| `LeaseOutcomes.AllIsClosed` | src/storage/file_manager.cpp:163-181 | close_all, once it goes on, closes every open file in any order and keeps exactly the ones whose close failed; then nothing is being closed any more |
| `LeaseOutcomes.ClosingNeverDeadlocks` | src/storage/file_manager.cpp:144-181 | In every interleaving in which some thread is closing and all leases are given back, some closing thread can take its next step |
| `Leases.FileManager.AcquireFile` | src/storage/file_manager.cpp:127-134 | Takes the acquire step and keeps the invariant; a lease is granted if and only if the file is open and no thread is closing it |
| `Leases.FileManager.ReleaseLease` | src/storage/file_manager.cpp:136-142 | Takes the release step and keeps the invariant; for a live lease terminate is not reached |
| `Leases.FileManager.OpenTableFile` | src/storage/file_manager.cpp:80-119 | Takes the open step, or none if the file cannot be opened, and keeps the invariant |
| `Leases.FileManager.BeginCloseTable` | src/storage/file_manager.cpp:144-150 | Takes the step of the region before the wait and keeps the invariant; it goes on to wait exactly when it started closing |
| `Leases.FileManager.ProceedClose` | src/storage/file_manager.cpp:151-156 | Takes the step after the wait and keeps the invariant; the file is still there, so terminate is not reached |
| `Leases.FileManager.CloseTableFile` | src/storage/file_manager.cpp:157-157 | Closing the file takes its step and keeps the invariant |
| `Leases.FileManager.EndCloseTable` | src/storage/file_manager.cpp:158-159 | Takes the last step of close_table_file and keeps the invariant |
| `Leases.FileManager.BeginCloseAll` | src/storage/file_manager.cpp:161-166 | Takes the first step of close_all and keeps the invariant |
| `Leases.FileManager.MarkAllClosing` | src/storage/file_manager.cpp:168-168 | Takes the step after the wait of close_all and keeps the invariant: every open file is to be closed |
| `Leases.FileManager.CloseOneOfAll` | src/storage/file_manager.cpp:171-171 | One turn of the closing loop takes its step and keeps the invariant |
| `Leases.FileManager.GiveUpCloseAll` | src/storage/file_manager.cpp:167-167 | The exit for an injected failure takes its step and keeps the invariant |
| `Leases.FileManager.EndCloseAll` | src/storage/file_manager.cpp:172-174 | Takes the last step of close_all and keeps the invariant |
| `Expressions.EvaluateSound` | src/core/expression.cpp:170-475 | A validated expression evaluates without error on every row of the validated shape, to a value of its type or NULL (which value a comparison or a connective gives: the Comparisons rows) |
| `Comparisons.IntegerComparisons` | src/core/expression.cpp:109-126 | INT and BIGINT operands, in any mixture: each of the six operators is the relation of the integers |
| `Comparisons.DoubleComparisons` | src/core/expression.cpp:127-144 | With a DOUBLE on either side each operator is the relation of the numbers the patterns stand for, an integer counting as its nearest double |
| `Comparisons.NaNsCompare` | src/core/expression.cpp:127-144 | Next to a NaN only <> holds |
| `Comparisons.EqualityComparisons` | src/core/expression.cpp:145-169 | BOOLEAN and VARCHAR compare for equality only |
| `Comparisons.NullComparisons` | src/core/expression.cpp:330-400 | A comparison with NULL is NULL; < <= > >= are refused when the other side is BOOLEAN or VARCHAR |
| `Comparisons.UnlikeComparisons` | src/core/expression.cpp:330-400 | Values of unlike kinds do not compare |
| `Comparisons.LessIsStrictTotal` | src/core/expression.cpp:109-144 | Among integers, and among doubles other than NaN, < is a strict total order, > its converse, <= and >= its unions with equality |
| `Comparisons.MixedEqualityIsNotTransitive` | src/core/expression.cpp:86-98 | Across types equality is not transitive: two neighbouring integers of 54 bits equal one double |
| `Comparisons.ThreeValuedLogic` | src/core/expression.cpp:501-532 | AND, OR and NOT over true, false and NULL, all cases; an operand of another type is refused |
| `Comparisons.KeptIffTrue` | src/core/expression.cpp:557-575 | A row is kept exactly when its predicate is true: false and NULL drop it |
| `Doubles.OrderIsOfNumbers` | src/core/expression.cpp:127-144 | The order on 64-bit patterns is the order of the numbers they stand for, both zeros being one number |
| `Doubles.ConversionIsNearest` | src/core/expression.cpp:86-98 | An int64 converts to a finite double that no double is nearer than, and of two equally near ones to the even one |
| `Doubles.ConversionIsExact` | src/core/expression.cpp:86-98 | The conversion is exact up to 53 bits |
| `Doubles.ConversionIsMonotone` | src/core/expression.cpp:86-98 | The conversion never reverses the order of two integers |
| `Doubles.ConversionSign` | src/core/expression.cpp:86-98 | The conversion keeps the sign |
| `Expressions.PredicateSound` | src/core/expression.cpp:533-575 | A validated predicate never gives an evaluation error |
| `Expressions.HeightWithinNodes` | src/core/expression.cpp:170-285 | The node count bounds the depth |
| `Expressions.LookupSlot` | src/core/expression.cpp:36-58 | The slot loop finds a slot bound exactly once and rejects missing and repeated ones |
| `Optimizer.OptimizeAgrees` | src/compiler/optimizer.cpp:180-415 | For every well-typed expression and every row the rewritten expression has the same three-valued result, and any recorded constant truth is that result |
| `Optimizer.OptimizeShrinks` | src/compiler/optimizer.cpp:225-345 | No rewrite adds a node or a level |
| `Optimizer.SameRowsSelected` | src/compiler/optimizer.cpp:346-428 | Optimizing a WHERE clause, dropping a constant-true one included, selects exactly the same rows |
| `OptimizerForms.ConstantsAreFolded` | src/compiler/optimizer.cpp:180-424 | A WHERE made of literals is dropped exactly when it is true of every row; its truth is known in any case |
| `OptimizerForms.OptimizedIsSimplest` | src/compiler/optimizer.cpp:222-415 | No rule applies to what is left: no NOT of a NOT or of NULL, no test of a literal, no comparison of literals with NULL, and no constant operand of AND or OR but NULL next to one that is not constant |
| `OptimizerForms.OptimizeIsFixed` | src/compiler/optimizer.cpp:222-415 | Optimizing twice changes nothing more |
| `Binding.CompareRulesAgree` | src/compiler/semantic.cpp:521-600 | The analyzer and the core validator accept exactly the same comparisons |
| `Binding.AnalyzeTyped` | src/compiler/semantic.cpp:521-669 | Analysis gives the expression's type, binds every column in scope and keeps the tree's shape |
| `Binding.BuildSlotBindings` | src/compiler/planner.cpp:44-72 | The loops give every column of every relation its own slot, in order |
| `Pipeline.GenerateKeepsMeaning` | src/compiler/planner.cpp:73-165 | The core evaluates the planned expression to the analyzed expression's meaning |
| `Pipeline.GenerateKeepsType` | src/compiler/planner.cpp:114-165 | The core's validator gives the planned expression the type the analyzer gave it |
| `Pipeline.PlannedPredicateIsValid` | src/compiler/planner.cpp:187-246 | After analysis, optimization and planning the core's validator accepts the predicate, depth limit included |
| `Pipeline.PlannedPredicateIsSound` | src/core/expression.cpp:286-475 | On every conforming row the planned predicate evaluates without error and keeps the row exactly when the analyzed, unoptimized predicate is true of it |
| `Keys.EqualKeysHashEqual` | src/core/executor.cpp:1221-1260 | Keys that compare equal hash equal, the two zeros included, for any std::hash |
| `Keys.FindPut` | src/core/executor.cpp:1221-1260 | The hash index is a map up to key equality |
| `JoinKeys.CollectHolds` | src/core/executor.cpp:1322-1388 | If the join condition is true on a pair of rows, every collected equality pair holds on it |
| `JoinKeys.EveryEqualityIsUsed` | src/core/executor.cpp:1322-1400 | Every AND-ed equality of two columns of one declared type, one from each input and written in either order, is collected into the key |
| `HashJoin.MissIsFalse` | src/core/executor.cpp:1322-1388 | A pair of rows the index would not offer cannot satisfy the condition |
| `HashJoin.NestedLoopOutcome` | src/core/executor.cpp:1846-1859 | The nested loop's outcome is the matching pairs in order, or the row-limit error exactly when there are more |
| `HashJoin.Join` | src/core/executor.cpp:1728-1859 | Whichever path is taken, and for any std::hash, the join gives the nested loop's rows in the same order or the same row-limit error, NULL, NaN and signed-zero keys included |
| `Aggregates.CountIsExact` | src/core/executor.cpp:1390-1397 | COUNT is the number of its inputs, or an overflow exactly when that is no int64 |
| `Aggregates.SumIsExact` | src/core/executor.cpp:1398-1407 | Integer SUM is the exact sum, or an overflow exactly when some prefix leaves int64 |
| `Aggregates.ExtremeIsExtreme` | src/core/executor.cpp:1408-1523 | MIN and MAX return an input no other input beats, or NULL without inputs |
| `Comparisons.ExtremeIsPlain` | src/core/executor.cpp:1145-1171 | MIN is an input that no other input precedes in the plain order, MAX one that precedes no other, and both are NULL without inputs |
| `Grouping.GroupByHash` | src/core/executor.cpp:1861-1931 | Hash grouping, for any std::hash, gives the groups of first-seen-order grouping, in that order |
| `GroupTheorems.GroupingIsFoldPerPart` | src/core/executor.cpp:1861-1931 | Grouping succeeds exactly when the in-order fold of every part does, and then gives those folds |
| `GroupTheorems.FoldEach` | src/core/executor.cpp:1408-1507 | Each call's state is its own fold: calls do not influence each other |
| `GroupTheorems.PartitionByKey` | src/core/executor.cpp:1190-1220 | Two rows share a part exactly when their keys are equal and free of NaN; parts keep input order |
| `GroupTheorems.PartitionCovers` | src/core/executor.cpp:1861-1931 | Every input row is in exactly one part |
| `GroupTheorems.UngroupedHasOneGroup` | src/core/executor.cpp:1871-1874 | An aggregate without keys has exactly one group, even over no rows |
| `GroupTheorems.CountStarAddsUp` | src/core/executor.cpp:1390-1523 | COUNT(*) over all groups adds up to the input row count |
| `Sorting.RowLess` | src/core/executor.cpp:1561-1592 | The comparator loop is the row comparator CompareRows, which RowComparisonIsPlain ties to the plain order of values, direction by direction |
| `Sorting.CompareRowsIsOrder` | src/core/executor.cpp:1145-1189 | On keys of one type per column the comparator is a strict weak ordering |
| `Comparisons.SortComparisonIsPlain` | src/core/executor.cpp:1145-1171 | The sort comparison is negative, zero or positive exactly as the plain order says: smaller integers, smaller numbers, texts that differ first in a smaller byte or end first, and false come first |
| `Comparisons.LessIsSortedBefore` | src/core/executor.cpp:1145-1171 | < in a WHERE and the order of a sort agree across INT, BIGINT and DOUBLE |
| `Comparisons.RowComparisonIsPlain` | src/core/executor.cpp:1572-1588 | The row comparator decides at the first key that differs: ascending puts the smaller value first, descending the greater one, NULL last in either direction |
| `Comparisons.SortIsPlain` | src/core/executor.cpp:1561-1592 | Of two output rows, the earlier one comes first in that order or agrees at every key |
| `Sorting.SortOrders` | src/core/executor.cpp:1561-1592 | The output is ordered by the row comparator (in plain terms: SortIsPlain) |
| `Sorting.SortKeeps` | src/core/executor.cpp:1561-1592 | The output is a permutation of the input |
| `Sorting.SortIsStable` | src/core/executor.cpp:1561-1592 | Rows with equal keys keep their input order |
| `Ordering.ValidSortIsOrdered` | src/core/executor.cpp:1706-1727 | A sort node that passed validation delivers the same rows, each before those that come later at the first key that differs (plain order of values, NULLs last, per direction), equal keys in input order, on all contents that match the schemas |
| `Ordering.OrderByIsObeyed` | src/core/executor.cpp:1561-1592 | An accepted SELECT with ORDER BY delivers its rows so that at the first named column where two rows differ the earlier one has the smaller value if ascending, the greater one if descending, and NULLs last |
| `Ordering.OneKeyOrder` | src/core/executor.cpp:1572-1588 | With one ascending key, a row before another has NULL only if the other has, and otherwise a value that is not greater; descending, one that is not smaller |
| `Plans.ValidRowShape` | src/core/executor.cpp:857-1046 | Every row shape the validator computes binds each slot at most once, to a declared type |
| `Executor.ValidPlansAreSound` | src/core/executor.cpp:1593-1940 | A validated plan delivers rows of the validated shape on all contents that match the schemas; it can fail only by the row limit, an overflow or a non-finite number |
| `Executor.ExecuteNode` | src/core/executor.cpp:1593-1940 | The recursive executor with hash joins and hash grouping computes the reference result |
| `SelectAnalysis.AnalyzeGood` | src/compiler/semantic.cpp:771-935 | Whatever passes analysis is well formed in the scope of its FROM list (that it still means the statement: SelectAnswersTheStatement) |
| `SelectAnalysis.ReadWithinBudget` | src/compiler/parser.cpp:846-853 | The expressions of a SELECT, read one after the other with the statement-wide budget, are each within the core's depth limit |
| `SelectAccepted.SelectPlanned` | src/compiler/planner.cpp:187-343 | Planning an analyzed SELECT never fails |
| `SelectAccepted.SelectIsAccepted` | src/core/executor.cpp:857-1106 | Every analyzed SELECT is planned, 1 + joins levels deep plus one each for a WHERE clause that is not constantly true, grouping and ORDER BY; the executor's validators accept the plan if and only if that is less than 256 |
| `SelectDepth.CrossSelectDepth` | src/compiler/parser.cpp:846-853 | For every catalog and every number of JOIN .. ON TRUE the budget admits, the statement is parsed and analyzed, and refused by the executor if and only if it joins 256 tables or more |
| `SelectDepth.DeepStatementIsRefused` | src/core/executor.cpp:857-866 | A statement of 255 joins over a catalog of 256 tables is within the parser's budget, passes analysis and is refused |
| `SelectAccepted.DeepPlansRejected` | src/core/executor.cpp:857-870 | The validator rejects every plan that reaches the depth limit |
| `SelectAccepted.SelectRunsSoundly` | src/core/executor.cpp:1593-1962 | An accepted SELECT projects every row, or stops at the row limit, an overflow or a number that is not finite: of an aggregate, or, only if such numbers are stored, a sort key |
| `SelectAccepted.ExecuteSelect` | src/core/executor.cpp:1593-1962 | Executing a compiled SELECT with hashing gives the reference answer, which is the meaning of the statement by SelectAnswersTheStatement |
| `SelectOptimized.OptimizedAnswerIsSame` | src/compiler/optimizer.cpp:416-483 | The optimized query gives the answer of the query as analyzed whenever the latter's plan is accepted |
| `SelectOptimized.OptimizerKeepsAnswers` | src/compiler/optimizer.cpp:463-483 | For every analyzed statement whose unoptimized plan fits the depth limit, compiling with or without the optimizer makes no difference to the answer |
| `SqlTheorem.SelectAnswersTheStatement` | src/compiler/semantic.cpp:771-935 | The answer of every accepted SELECT is its meaning over names: the tuples of the FROM tables in order, those on which every ON and the WHERE are true with names standing for columns, grouped by the named columns, each aggregate of its own kind over its own column, sorted by the named keys, item i in position i; everything else is a limit, an overflow or a number that is not finite |
| `SqlSuccess.PlainSelectEnds` | src/core/executor.cpp:1593-1940 | A SELECT without grouping is answered exactly when its tables and each of its joins are within the row limit and no selected tuple has an infinity or a NaN at a name it is sorted by; otherwise the error says which |
| `SqlLegal.SelectAcceptedIffLegal` | src/compiler/semantic.cpp:771-935 | Analysis accepts a SELECT exactly when its tables exist, none is named twice, every name stands for one column in its sight, every condition is boolean, aggregates take the columns they can, and a grouped query shows and sorts by grouped columns only |
| `SqlLegal.LegalIsAnalyzed` | src/compiler/semantic.cpp:521-670 | Analysis of an expression succeeds exactly when it is legal by the names and types in sight, with that type |
| `SqlNames.ResolveFindsTheName` | src/compiler/semantic.cpp:173-231 | A name is resolved exactly when one column in sight has it, and to that column and its type |
| `SqlNames.AnalyzeKeepsMeaning` | src/compiler/semantic.cpp:521-670 | The analyzed expression has the value of the one written, names standing for their columns |
| `SqlJoins.TreeDelivers` | src/compiler/planner.cpp:187-343 | The tree over the first tables delivers their tuples on which the ON conditions are true, in order |
| `SqlFilters.InnerDelivers` | src/compiler/planner.cpp:187-343 | Joins and filter deliver exactly the tuples on which every ON and the WHERE are true |
| `SqlGroups.PartitionIsGroups` | src/core/executor.cpp:1861-1931 | The executor's partition by grouping key is the grouping of the tuples by the named columns |
| `SqlAnswers.RootDelivers` | src/core/executor.cpp:1593-1962 | The rows under the projection tell the sorted groups: their named columns and their aggregates |
| `Writes.CoerceRefuses` | src/compiler/semantic.cpp:353-393 | Coercion refuses exactly NULL for NOT NULL columns and types that do not widen |
| `Writes.MissingIffShort` | src/compiler/semantic.cpp:700-770 | Distinct columns are all of them exactly when there are as many: the search for a missing column always finds one |
| `Writes.InsertIsAccepted` | src/core/executor.cpp:422-510 | Every analyzed INSERT passes the executor's checks, and each column gets its own value, coerced |
| `Writes.UpdatedRowIsAccepted` | src/core/executor.cpp:642-788 | Every row an accepted UPDATE writes passes the row check, and only assigned columns change |
| `Mutations.ScanTargets` | src/core/executor.cpp:567-597 | The scan collects the targets in scan order and stops at the first error |
| `Mutations.MutationIsAccepted` | src/compiler/semantic.cpp:936-1027 | Every analyzed DELETE and UPDATE is planned and passes the executor's checks |
| `Mutations.MutationTouchesMatches` | src/core/executor.cpp:512-788 | On every table that matches its schema a DELETE or UPDATE meets no evaluation error and touches exactly the records of which its analyzed, unoptimized predicate is true |
| `Mutations.ChosenRowsMatch` | src/core/executor.cpp:642-788 | Every row an UPDATE writes matches the schema again |
| `Outcomes.ExecutionIsReportable` | src/core/executor.cpp:361-803 | For every plan and every answer of the storage the outcome of an execution is a result, an execution or storage error, an internal error, or a count with a storage error |
| `StatementEnds.InsertEndsWell` | src/core/executor.cpp:422-510 | Over a storage that keeps its promises an analyzed INSERT ends with its row count, a storage error, or both |
| `StatementEnds.MutationEndsWell` | src/core/executor.cpp:512-803 | An analyzed DELETE or UPDATE is cancelled, ends in a storage error, or asks the storage to change exactly the records its predicate chose |
| `StatementEnds.RunIsReference` | src/core/executor.cpp:1593-1940 | Over a storage that may fail at every scan a plan is cut short by a cancellation or a storage error, or computes the reference result |
| `StatementEnds.SelectEndsAsReference` | src/core/executor.cpp:1593-1962 | An analyzed SELECT below the depth limit is cancelled, ends in a storage error, or ends as its reference answer does |
| `StatementEnds.SelectEndsWell` | src/core/executor.cpp:1593-1962 | Over stored rows without infinities and NaNs, which the record codec neither writes nor reads, an analyzed SELECT below the depth limit never ends in an internal error |
| `StatementEnds.SelectEndsInternally` | src/core/executor.cpp:1525-1558 | An analyzed SELECT below the depth limit ends in an internal error if and only if the rows it has to sort arrive and one of them has an ORDER BY value that is not finite |
| `SortFaults.PlainOrderFailsExactly` | src/core/executor.cpp:1525-1558 | On stored data: a single-table ORDER BY query over a table that is delivered whole ends in an internal error if and only if the table fits the row limit and stores, in an ORDER BY column, a number that is not finite |
| `SortFaults.InfinityFails` | src/core/executor.cpp:1540-1544 | A concrete catalog, query and stored infinity for which it does |
| `FiniteData.FiniteDataStaysFinite` | src/core/executor.cpp:1593-1940 | Over finite stored data every node of every plan, joins, grouping and aggregates included, delivers finite values, and no sort key is refused |
| `FiniteData.SortRefuses` | src/core/executor.cpp:1525-1558 | Sorting rows of the validated shape is refused if and only if some key of some row is not finite |
| `Statements.StatementEndsWell` | src/core/executor.cpp:361-1962 | Every CREATE, INSERT, DELETE, UPDATE and SELECT that passes analysis over the catalog of an open database is accepted by the executor and, while the storage keeps its promises, ends in an internal error if and only if it is a SELECT of 256 levels or more |
| `Statements.StatementNeverAborts` | src/core/script.cpp:186-380 | In a script such a statement is executed, refused by the compiler or the execution, or cancelled; only a SELECT that is too deep aborts the script |
| `Parser.ParseUndoesPrint` | src/compiler/parser.cpp:605-853 | Parsing a printed expression gives it back, using exactly its cost of the budget, and is refused as too complex exactly when the budget is smaller |
| `Parser.StatementWithinBudget` | src/compiler/parser.cpp:846-853 | The statement-wide budget of 256 bounds the nodes of all expressions of a statement, hence the depth of each |
| `Parser.ExpressionParser.ParseOrExpression` | src/compiler/parser.cpp:609-634 | The stateful recursive-descent parser returns, consumes and reports exactly what the grammar function does |
| `Parser.ExpressionParser.ParsePrimaryExpression` | src/compiler/parser.cpp:724-823 | The same for literals, columns and parentheses |
| `Splitter.SplitIsKeptPieces` | src/compiler/compiler.cpp:31-155 | The statements are the kept pieces of the text in order, each the exact substring; only pieces that do not matter are dropped |
| `Splitter.SplitInOrder` | src/compiler/compiler.cpp:31-155 | Statement ranges are ordered and disjoint |
| `Splitter.SplitRangesAccepted` | src/core/diagnostics.cpp:13-83 | A statement's range passes the core's check if and only if no lone carriage return precedes either end on its line |
| `Splitter.PairedReturnsAreAccepted` | src/core/diagnostics.cpp:22-83 | If every carriage return is followed by a line feed, every range is accepted |
| `Splitter.LoneReturnIsRefused` | src/core/diagnostics.cpp:33-46 | A concrete text whose range the core refuses |
| `Splitter.SplitStatements` | src/compiler/compiler.cpp:31-155 | The one-pass state machine computes the specified statements and ranges, or the size error |
| `Lexer.OverflowTestIsExact` | src/compiler/lexer.cpp:360-445 | The digit-by-digit test refuses exactly the integers beyond int64 |
| `Lexer.OverflowsInt64` | src/compiler/lexer.cpp:415-428 | The digit loop decides whether the literal exceeds int64 |
| `Lexer.Scanner.Run` | src/compiler/lexer.cpp:157-260 | The scanner produces exactly the specified tokens or error |
| `SqlTokens.LexedTokens` | src/compiler/lexer.cpp:338-358 | Words reach the parser as valid identifiers, at most 64 lower-case letters, digits and underscores, and every integer literal the lexer lets through converts |
| `SqlTokens.IntegerConverts` | src/compiler/parser.cpp:21-33 | Lexer and parser accept exactly the same integer literals |
| `SqlTokens.LiteralsAreStorable` | src/compiler/lexer.cpp:446-512 | With the lexer's own checks every string literal is well-formed UTF-8 within the VARCHAR limit and every DOUBLE literal is finite |
| `SqlSpelling.ScansWhatIsWritten` | src/compiler/lexer.cpp:157-514 | Wherever a token is written and nothing follows that continues it, the scanner reads exactly that token: words and keywords in any case, decimal numbers with their value, strings with doubled quotes, operators |
| `SqlSpelling.WritableTokensAreWritten` | src/compiler/lexer.cpp:40-86 | Every token has such a text but DOUBLE literals, whose conversion is a parameter, negative numbers and over-long words and strings |
| `SqlText.LexUndoesWriting` | src/compiler/lexer.cpp:157-520 | A text written token by token, with any blanks and comments between, is lexed as exactly those tokens |
| `SqlText.ExpressionTextReadsBack` | src/compiler/parser.cpp:605-853 | An expression written as text, in any case and with any blanks and comments, is read back as itself for its exact cost |
| `SqlText.CreateTextReadsBack` | src/compiler/parser.cpp:77-164 | A CREATE TABLE written as text is read back as itself |
| `SqlScript.SplitUndoesWriting` | src/compiler/compiler.cpp:31-155 | A script written statement by statement is split into exactly those statements, each with its own text, whatever its strings and comments hold |
| `SqlScript.ScriptReadsBack` | src/compiler/compiler.cpp:31-155 | And the text of each statement is lexed as the tokens it was written from |
| `CreateTables.CreateRoundTrip` | src/compiler/parser.cpp:77-164 | Every CREATE TABLE with a column can be written as tokens, and parses back to itself |
| `CreateTables.TextGivesNames` | src/compiler/parser.cpp:77-164 | A CREATE TABLE read from any text names its table and at least one column by valid identifiers |
| `CreateTables.FindRepeatedColumn` | src/compiler/semantic.cpp:678-690 | The nested loops of analyze_create find the first repeated column name, or there is none |
| `CreateTables.CreateIsAccepted` | src/compiler/semantic.cpp:671-698 | An analyzed CREATE has valid metadata and passes every check of the executor if and only if a table id is left |
| `CreateTables.CreateEndsWell` | src/core/executor.cpp:361-420 | Over a storage that does not throw it ends in an execution error exactly when the ids are exhausted, else in the storage's error or in success |
| `SplitLex.DroppedIffNothing` | src/compiler/compiler.cpp:31-155 | The splitter drops a piece exactly when the lexer would find nothing in it but an optional semicolon |
| `SplitLex.StatementsHaveOneSemicolon` | src/compiler/lexer.cpp:157-260 | A statement that tokenizes has at most one semicolon token, directly before the end token |
| `Scripts.ExecuteScript` | src/core/script.cpp:56-392 | The statement loop returns exactly the results of the reference, for every cancellation, exception, compile and storage outcome in every mode |
| `Scripts.ResultsAreComplete` | src/core/script.cpp:56-392 | Every path gives exactly one result per statement, with contiguous indices |
| `Scripts.JudgeIsAccepted` | include/tinydbms/core.hpp:146-193 | The result factories accept what the runner hands them, for every plan and every answer of the storage |
| `Scripts.ResultsStopAtFailure` | src/core/script.cpp:246-275 | No statement is executed after the first failure |
| `Scripts.PlanOnlyRunsNothing` | src/core/script.cpp:270-290 | Plan-only never executes anything, and the starting catalog stays in force |
| `Scripts.ExecutedExactlyUntilFailure` | src/core/script.cpp:315-380 | Execution goes on past a script if and only if nothing goes wrong at any statement reached |
| `ScriptOutcomes.ReachedStatementIsTold` | src/core/script.cpp:315-392 | What a statement that is reached is told and what becomes of the rest, in all four cases: a good end (the catalog then has the new table if it was a CREATE), a plain failure (the rest is analyzed over the catalog of that moment, or skipped), a cancellation (the rest is cancelled), an exception or internal error (indeterminate if storage was called; the rest is skipped) |
| `ScriptOutcomes.FailureIsFollowedByAnalysis` | src/core/script.cpp:246-314 | Under the analyze policy every statement after the first plain failure is analyzed, never skipped: told its compile error, that its CREATE is refused, or that it passed |
| `ScriptOutcomes.PlanOnlyTells` | src/core/script.cpp:268-290 | With plans only each statement is told whether it compiles over the starting catalog; under the stop policy those after the first that does not are skipped |
| `Scripts.JudgeKeepsGood` | src/core/script.cpp:186-380 | Every statement keeps the catalog in force valid: good metadata, distinct ids and names, the next id past all of them and past the reserved ones |
| `Scripts.StatementsMeetGoodCatalogs` | src/core/analysis_catalog.cpp:42-79 | From the catalog open restores, every statement of every script meets such a catalog, and an analyzed CREATE is accepted exactly as the runtime would accept it |
| `Catalogs.RestoreCatalog` | src/core/database.cpp:192-216 | The loop of open restores the listed tables, or refuses the listing |
| `Catalogs.RestoredIsGood` | src/core/database.cpp:192-216 | open accepts exactly the listings with valid metadata, distinct ids and distinct names; the next id is past the reserved ones if and only if some listed id is 1 or more |
| `Catalogs.CreateKeepsGood` | src/core/executor.cpp:361-420 | A CREATE that passes the runtime's checks keeps the catalog valid |
| `Catalogs.ShadowMirrorsRuntime` | src/core/analysis_catalog.cpp:42-79 | The shadow accepts exactly the CREATEs the runtime would, with the same effect |
| `Scripts.CatalogIsCreates` | src/core/analysis_catalog.cpp:33-79 | The catalog in force is the starting one with the CREATEs applied so far |
| `Scripts.ShadowStartsAtFailure` | src/core/script.cpp:246-313 | While statements are only analyzed, the shadow is the runtime catalog at the first failure plus the CREATEs accepted since |
| `DatabaseSlot.StepKeepsInv` | src/core/database.cpp:37-300 | Every call on any object keeps the slot invariant |
| `DatabaseSlot.SlotHasOneOwner` | src/core/database.cpp:72-300 | After any sequence of open, close, abort, move and destruction the slot is held exactly when one object is open or needs a cleanup retry, never by two |
| `DatabaseSlot.OpenOutcome` | src/core/database.cpp:134-231 | From every reachable state: an open succeeds exactly when the object is closed, no object holds the slot and the storage comes up, and then the object is open and holds the slot |
| `DatabaseSlot.CloseOutcome` | src/core/database.cpp:232-300 | A close that reaches the storage leaves the object closed and the slot free, or waiting for a retry with the slot kept |
| `DatabaseSlot.AbortOutcome` | src/core/database.cpp:44-68 | A storage exception leaves an open object to be closed, with the slot free, or kept for a cleanup retry |
| `DatabaseSlot.MoveOutcome` | src/core/database.cpp:94-94 | A moved-to object takes over exactly the other one's state, which is left without any |
| `DatabaseSlot.MoveAssignOutcome` | src/core/database.cpp:96-132 | Move assignment first closes the target; if that fails nothing is handed over |
| `DatabaseSlot.DestroyOutcome` | src/core/database.cpp:72-92 | Destruction frees the slot exactly when the object held it |
| `DatabaseSlot.OpenShutsOthersOut` | src/core/database.cpp:134-231 | Over every run: an open object stays open and every open of any object is refused without effect until it is closed, aborted, moved or destroyed |
| `DatabaseSlot.CloseLetsOthersIn` | src/core/database.cpp:232-300 | After a successful close every closed object, this one included, can be opened |
| `DatabaseSlot.AbortLetsOthersIn` | src/core/database.cpp:44-68 | After a storage exception with a clean-up that succeeded another object can be opened at once, this one after a close |
| `DatabaseSlot.Database.OpenDatabase` | src/core/database.cpp:134-231 | Success exactly when the object was closed, the slot free and the storage restored: then the object is open and the slot held; after a failed start it is closed with the slot free, or waits for another close with the slot kept; a refused open changes nothing |
| `DatabaseSlot.Database.CloseDatabase` | src/core/database.cpp:232-300 | close gives the slot back, or keeps it for a retry |
| `DatabaseSlot.Database.AbortAfterStorageException` | src/core/database.cpp:44-68 | A storage abort closes the object and keeps the slot exactly when cleanup must be retried |
| `DatabaseSlot.Database.Destroy` | src/core/database.cpp:72-92 | Destruction releases the slot exactly when the object owned it |
| `DatabaseSlot.Database.MoveFrom` | src/core/database.cpp:96-132 | Move assignment hands over the other object's state, or keeps its own when its cleanup must be retried |
| `EditDistance.ScriptsCostAtLeast` | src/compiler/diagnostic_suggestion.hpp:41-85 | No edit script (insert, delete, replace, swap of neighbours) is cheaper than the recursive distance |
| `EditDistance.CheapestScript` | src/compiler/diagnostic_suggestion.hpp:41-85 | Some script costs exactly the distance |
| `EditDistance.LengthsApart` | src/compiler/diagnostic_suggestion.hpp:41-50 | The distance is at least the difference in length: the prefilter is sound |
| `EditDistance.FillRow` | src/compiler/diagnostic_suggestion.hpp:52-80 | The inner loop computes the next row of the distance table and its least entry |
| `EditDistance.BoundedDistance` | src/compiler/diagnostic_suggestion.hpp:41-85 | The rolling three-row computation returns d if and only if the distance is d and within the limit; prefilter and early exit change nothing |

## Left out

- src/app and src/gui: argument parsing, rendering, widgets and worker signals hold only easy properties.
- Streams, file-system calls, timing, statistics of prefetching and log text: an abstract disk with failing writes stands for them.
- The prefetch queue and its worker's scheduling: a prefetch is a fetch that may start at any moment and picks only clean victims.
- The tail of load_page (src/storage/buffer_pool.cpp:858-896): every eligible victim has a key and is clean or dirty, so the branches before it always return.
- The public storage implementation and the system catalog: not part of this model; their results are parameters.
- Exhaustion of the 64-bit tickets, generations and counters and of 32-bit slot ids, and memory exhaustion.
- Slotted pages and encoded records are byte sequences that operations return anew, as the source works on a copy and commits by assignment; aliasing of page buffers is not modelled.
- PoolTheorems.RunKeepsInv: the set of pages on disk is fixed at the start of a run; pages that the file allocates or frees while the pool runs are outside the coherence theorems.
- HeapTables.HeapTable.Insert: the pages come from a map that stands for the coherent pool, and which free page an allocation takes is a parameter.
- HeapTables.HeapTable.CreatePage: does not model a failure while giving back a page whose bootstrap failed.
- PageFileObject.PageFile.IsFree: does not model page reads that fail.
- Leases.FileManager.OpenTableFile: creating and opening differ only in the file-system calls and are one operation here.
- Mutations.MutationTouchesMatches: ends at the list of targets; what the storage then does with them is HeapTables' batches, not the public storage layer; StatementEnds takes the storage's count and error from there.
- Parser.ParseUndoesPrint: expressions only; the clause grammar of SELECT, INSERT, DELETE and UPDATE adds easy members, and what it reads enters as a parsed statement.
- Lexer error ranges, diagnostic wording and the choice among suggestion candidates.
- Sorting.CompareRowsIsOrder: keys of one value type per column; int64 against double compared through double is not transitive.
- Accuracy of AVG and DOUBLE SUM: the floating-point operations are arbitrary functions, so the theorems hold for any rounding.
- Plan text rendering, benchmarks, and the moment at which an operator notices a cancellation.
- SqlSuccess.PlainSelectEnds: SELECTs without grouping; a grouped one can also end in an overflow or a sum that is not finite, which CountIsExact, SumIsExact and FoldEach decide call by call.
