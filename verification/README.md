# Verification of the failover monitor and the engines it runs on

This project models the repository's hardest code in Dafny and proves what it promises. Each component has its own
modules; code that updates state in place is modelled as classes and methods with loops, and proved against
specification functions, of which the promised properties are then proved for all inputs, all runs or all reachable
states.

- **Page runs of a jemalloc arena** (`PageMap`, `Chunk`, `Avail`, `ArenaInv`, `FreeRun`, `LiveRuns`, `ChunkSteps`,
  `Relabel`, `Purge`, `Alloc`, `Threads`, `Arena`). The class `Arena` has the page map with its boundary tags, the
  clean and dirty trees, the spare, the dirty list and the counters. `Valid` holds after every operation, and the same
  wherever the lock is dropped: the runs tile each chunk, both tags of a run agree, free runs are coalesced, the trees
  hold exactly the available free runs, the counters are the page sums, and clear unzeroed bits are true. The methods
  are run by one thread, to which the runs in `mine` belong. At each drop of the lock the arena becomes what `others`
  makes of it: any function that keeps the invariant and leaves the runs of this thread alone (`Respectful`). In
  return every section of a method keeps the invariant and leaves the runs of all others alone (`Guaranteed`);
  `Threads` proves that this is all that any number of threads need of each other. `Between` says what an operation
  does for its thread in every interleaving; the clauses under `interruptions == old(interruptions)` say what it does,
  to everybody's runs (`Undisturbed`), the counters and the bound on dirty pages, if nobody else stepped in.
- **Free chunks** (`Division`, `Extents`, `RecycleRuns`, `Recycler`). Aligned carving and coalescing of free extents;
  every section that runs under the lock as a step, in any interleaving of threads; and the sections in place on the
  two trees.
- **Cuckoo hash** (`Ckh`). A finite map for every hash function and every random choice.
- **hiredis** (`Resp`, `RespMore`, `RespEncode`, `Reader`, `Format`, `AsyncReplies`). The resumable reader as a class
  and as steps on values, a recursive parser as its reference, the encoder, the formatters, and the queue that matches
  replies to callbacks.
- **libev** (`TimerHeap`, `Queues`, `Invocation`, `Timers`, `IoWatch`). The 4-ary timer heap, pending queues and
  reverse feeding, calling what is pending while callbacks change the queues; descriptor interest and the poll array.
- **uthash** (`HashNode`, `SortSpec`, `HashSort`, `HashTable`). Bucket chains and the application-order list over the
  same nodes, bucket doubling, and the in-place merge sort.
- **The monitor's own protocol** (`DownServer`, `Exchange`, `Gather`). Gather rounds with the queries sent and the
  ballots that answer them, the refresh of the targets, and the exchange of master and slave by the event loop and
  worker threads, where each read or write of a shared record is a step of its own.
- **sds quoting** (`Quoting`). sdscatrepr and sdssplitargs.

`Basics` holds what several components share.

`dafny verify dfyconfig.toml` checks everything.

## Where the code does less than one would expect

Each is a lemma or a contract that gives the exact condition.

- `Exchange.ExchangedExactly`, `Exchange.Overtaken`, `Exchange.StuckForever`: action.c:138 writes EXCHANGING after the
  thread was created. If the thread has written its result by then, the success is overwritten, SMOVE is never issued
  and the record never leaves the down list. It happens exactly when the thread's write comes first.
- `Exchange.FailedExactly`, `Exchange.OvertakenFailure`: in the same race a failed script is not retried; its record
  stays EXCHANGING for ever.
- `Exchange.LossExactly`, `Exchange.LostForGood`, `Exchange.LossRun`: a reply to an older HGETALL that arrives while
  the record is EXCHANGED clears toBeUpdated (action.c:265), and the pending SMOVE is lost. It can happen exactly
  while such a reply is outstanding.
- `Exchange.GivesUpExactly`, `Exchange.GivenUpForGood`, `Exchange.GivesUpRun`: when EXEC gets no reply at all
  (action.c:389-391), toBeUpdated stays 0, so SMOVE is never sent again and the record never leaves the down list.
  With a single transaction on its way that is the only event that gives the SMOVE up.
- `Exchange.SuccessExactly`, `Exchange.SmoveAfterKilled`: `WEXITSTATUS` of a shell killed by a signal is 0, so it
  counts as success, and SMOVE follows (action.c:117-118).
- `Gather.FlaggedWithoutRecord`: the in-down-list flag is set even when the key is malformed and no record was made
  (gather.c:208-209).
- `Recycler.Chunks.Alloc`: when the node for the trail cannot be allocated, chunk_recycle gives a block back that was
  never counted, so curchunks is too small from then on (chunk.c:96-99, 274-278).
- `RecycleRuns.NeverAdjacentExactly`, `RecycleRuns.MissedMerge`: the trail is inserted under a second lock without
  coalescing (chunk.c:94-107). A block freed right behind it in the gap stays unmerged. That is the only way in which
  free extents come to be adjacent.
- `CuckooHash.InitialCells`, `CuckooHash.ThreeItems`: the comment at ckh.c:367-373 promises the smallest table that is
  large enough, but ckh.c:375 adds three also to a multiple of three, so items that fill three quarters of a table get
  one twice as large.
- `CuckooHash.Ckh.Insert`: when memory runs out while growing, the table has lost exactly one item, which need not be
  the new one (ckh.c:466-470).
- `Quoting.RoundTripExactly`: sdscatrepr prints `\xHH` (sds.c:398), the comment at sds.c:410-417 promises that
  sdssplitargs reads it back, but sds.c:444-451 reads `xHH`.


## Model

| member | source | states |
|---|---|---|
| `ArenaRuns.Arena.RunSplit` | deps/jemalloc/src/arena.c:189-338 | Splitting a free run keeps the whole arena invariant: runs tile every chunk, both end tags of every run agree, no two adjacent free runs share their dirtiness, the clean and dirty trees hold exactly the free runs of the chunks that are not the spare, and nactive and ndirty are the page sums. Memory outside the new run is untouched, and a run asked for as zero is all zero |
| `ArenaRuns.Arena.ZeroRun` | deps/jemalloc/src/arena.c:262-298 | Zeroing only the pages marked unzeroed of a clean run, or all pages of a dirty one, leaves the run all zero, provided clear unzeroed bits tell the truth |
| `ArenaRuns.Arena.SplitMap` | deps/jemalloc/src/arena.c:229-337 | The map elements written by a split are the end tags of the remainder, with its dirtiness and kept unzeroed bits, and those of the new large or small run |
| `ArenaChunk.SplitCoalesced` | deps/jemalloc/src/arena.c:229-249 | After a split no two adjacent free runs of equal dirtiness exist |
| `ArenaChunk.SplitZero` | deps/jemalloc/src/arena.c:229-249 | A split keeps: each page of a clean free run whose unzeroed bit is clear really is zero |
| `ArenaRuns.Arena.ChunkAlloc` | deps/jemalloc/src/arena.c:340-422 | The spare, or else a new chunk, with the lock free while the system is asked: one maximal free run is added to an arena that others may have changed meanwhile, also by leaving a spare of their own. It fails exactly if there is no spare and the system has no chunk. In every interleaving the invariant holds and the runs of this thread keep their place, pages and map elements |
| `ChunkSteps.AddInv` | deps/jemalloc/src/arena.c:372-422 | A new chunk from the system keeps the invariant whatever the spare is by then |
| `ArenaRuns.Arena.TakeSpare` | deps/jemalloc/src/arena.c:347-367 | The spare goes back into use and into the tree of its dirtiness; nothing else changes |
| `ChunkSteps.FreshOK` | deps/jemalloc/src/arena.c:381-418 | The page map of a new chunk describes one clean free run, even though inner elements are only written when the chunk is not zeroed |
| `ArenaRuns.Arena.ChunkDealloc` | deps/jemalloc/src/arena.c:424-464 | An entirely free chunk becomes the spare and leaves its tree; the old spare leaves the arena, with its dirty pages discounted, and goes back to the system while the lock is free. Whatever others do then, the invariant holds afterwards and the runs of this thread are untouched; if nobody steps in, no live run of anybody is |
| `ArenaRuns.Arena.Retire` | deps/jemalloc/src/arena.c:424-461 | Up to the drop of the lock the spare is replaced, nobody's live run is disturbed and neither ndirty nor the dirty list grows |
| `ChunkSteps.DiscardInv` | deps/jemalloc/src/arena.c:448-463 | Giving the old spare back keeps the invariant, also when it was on the dirty list |
| `ArenaRuns.Arena.RunAllocHelper` | deps/jemalloc/src/arena.c:466-500 | The run taken is the smallest that fits, lowest address first, of the dirty tree, else of the clean tree; a failed search changes nothing |
| `Avail.NSearch` | deps/jemalloc/src/arena.c:97-126 | The tree search returns the least element, by size and then address, that is large enough, and none exactly when every element is too small |
| `ArenaRuns.Arena.RunAlloc` | deps/jemalloc/src/arena.c:502-535 | The best fit of the trees if anything fits, else a run of a new chunk. A last search is made exactly if the system refuses one: of what other threads have made available meanwhile it takes the best fit, and it fails exactly if nothing fits then. In every interleaving the run belongs to this thread alone, nobody has written its pages since, and it is all zero if that was asked for |
| `ArenaRuns.HelpedByOthers` | deps/jemalloc/src/arena.c:529-534 | A concrete run in which no run fits and the system refuses, and the last search finds what another thread has left |
| `ArenaRuns.Arena.FreeRun` | deps/jemalloc/src/arena.c:813-950 | Freeing a run merges it with free neighbours of the same dirtiness only and keeps the arena invariant; exactly that live run disappears. An emptied chunk is retired, and what others do while the old spare is given back touches no run of this thread |
| `ArenaChunk.FreeCoalesced` | deps/jemalloc/src/arena.c:875-927 | Merging forward and backward leaves no mergeable neighbours |
| `ArenaChunk.FreeZero` | deps/jemalloc/src/arena.c:859-927 | Freeing and merging never lose dirtiness or an unzeroed bit |
| `ArenaRuns.Arena.RunDalloc` | deps/jemalloc/src/arena.c:813-964 | For every value of npurgatory: this thread gives up exactly the freed run, its other runs are untouched in every interleaving, and its share of npurgatory is as before. If nobody else steps in, nactive drops by exactly the pages of the run, no other pages become dirty, and the bound on dirty pages holds afterwards unless others intend to purge. A clean run purges nothing |
| `ArenaRuns.Arena.MaybePurge` | deps/jemalloc/src/arena.c:537-547 | Below the limits nothing happens. If nobody else steps in and npurgatory is 0, then afterwards ndirty is at most the pages of a chunk or at most nactive >> opt_lg_dirty_mult |
| `ArenaRuns.Arena.PurgeArena` | deps/jemalloc/src/arena.c:717-802 | Purging terminates whatever others do between its chunks, also when the unsigned difference of ndirty and npurgatory wraps around. A thread takes back exactly what it has added to npurgatory, modulo the word size, and finds its runs untouched. Whatever others do, before the last chunk it had purged fewer pages than it set out to: all that nobody else was purging, or, unless all are to go, the part of them above nactive >> lg_dirty_mult. If nobody else steps in it reaches its target, keeps nactive and disturbs no live run |
| `Purge.ShiftExactly` | deps/jemalloc/src/arena.c:744-748 | nactive >> k times 2^k is at most nactive and less than 2^k below it |
| `ArenaRuns.Arena.Claim` | deps/jemalloc/src/arena.c:775-799 | A chunk of n dirty pages is taken off what the thread has announced in npurgatory, or n are announced if that was less; modulo the word size npurgatory still holds exactly what the thread owes, on top of what others added |
| `ArenaRuns.Arena.NextDirty` | deps/jemalloc/src/arena.c:750-771 | Chunks without dirty pages leave the dirty list; a chunk with dirty pages is found unless ndirty is 0 |
| `ArenaRuns.Arena.ChunkPurge` | deps/jemalloc/src/arena.c:549-715 | Every dirty run of a chunk is allocated, given to the system without the lock, and freed as clean. In every interleaving the invariant holds whenever the lock is free and no run of the thread is touched; exactly the dirty pages of the chunk are purged; if nobody steps in, no live run of anybody is, nactive is as before, and the dirty pages of the chunk are gone |
| `ArenaRuns.Arena.Hold` | deps/jemalloc/src/arena.c:577-674 | Up to the drop of the lock every dirty run of the chunk becomes an allocated run of this thread, where no live run was; their pages are the dirty pages of the chunk, which is what arena.c:682-699 asserts |
| `ArenaRuns.Arena.GiveBack` | deps/jemalloc/src/arena.c:676-698 | Although others step in before, between and after the calls of the system, every held run stays allocated to this thread, and in the end none of their pages has been written since the system had them |
| `ArenaRuns.Arena.ReleaseHeld` | deps/jemalloc/src/arena.c:702-714 | Freeing the held runs as clean adds no dirty page, in whatever state the others have left the arena; exactly the held runs are given up |
| `Purge.MarkDirty` | deps/jemalloc/src/arena.c:594-668 | The walk over the page map finds exactly the dirty free runs and marks each as an allocated large run |
| `Purge.MarkedZero` | deps/jemalloc/src/arena.c:608-628 | Marking keeps unzeroed bits truthful, and sets them where purging does not zero |
| `Purge.AdvisedOK` | deps/jemalloc/src/arena.c:683-698 | Whatever the system leaves in the pages of a held run, its contents agree with the unzeroed bits, so the chunk keeps its invariant |
| `ArenaRuns.Arena.PurgeAll` | deps/jemalloc/src/arena.c:804-811 | No dirty page is left if nobody else steps in and npurgatory is 0 |
| `ArenaRuns.Arena.Cut` | deps/jemalloc/src/arena.c:979-995 | Rewriting two elements makes two allocated runs of one, with the same memory |
| `ArenaRuns.Arena.TrimHead` | deps/jemalloc/src/arena.c:966-996 | The run keeps exactly its last pages, map elements and contents included, in every interleaving and for every npurgatory; if nobody steps in the head is free and nactive drops by it |
| `ArenaRuns.Arena.TrimTail` | deps/jemalloc/src/arena.c:998-1029 | The run keeps exactly its first pages and their contents, in every interleaving and for every npurgatory; if nobody steps in the tail is free |
| `ArenaRuns.Arena.AllocBinRun` | deps/jemalloc/src/arena.c:1104-1121 | The run for a bin is live, pristine, of the size of the bin and this thread's alone, in every interleaving |
| `ArenaRuns.Arena.MallocLarge` | deps/jemalloc/src/arena.c:1358-1394 | A large run requested with zero is all zero, whatever came before and whatever others do meanwhile; it belongs to this thread alone, whose other runs are untouched; the dirty bound holds if nobody steps in |
| `ArenaRuns.Arena.Palloc` | deps/jemalloc/src/arena.c:1396-1448 | Over-allocating and trimming both ends gives a run of exactly the size, zero if asked, at an address that is a multiple of the alignment, in every interleaving; if nobody steps in nactive grows by exactly the size |
| `AllocSteps.LeadAligned` | deps/jemalloc/src/arena.c:1417-1421 | The lead is shorter than the alignment and ends at an aligned address |
| `ArenaRuns.Arena.DallocBinRun` | deps/jemalloc/src/arena.c:1496-1545 | A small run is freed as dirty, but its untouched pages as clean if it was clean; the thread gives up exactly this run in every interleaving, and if nobody steps in the bound is kept, and of a clean run only the pages before `past` have become dirty |
| `ArenaRuns.Arena.DallocLarge` | deps/jemalloc/src/arena.c:1679-1707 | The thread gives up exactly this run, in every interleaving; if nobody steps in nactive drops by its pages and the bound is kept |
| `ArenaRuns.Arena.RallocLargeShrink` | deps/jemalloc/src/arena.c:1709-1737 | The run keeps its place, its first pages and their contents, in every interleaving |
| `ArenaRuns.Arena.RallocLargeGrow` | deps/jemalloc/src/arena.c:1739-1807 | In-place growth fails exactly if the free run behind is too small, and then changes nothing; else the run takes all of it up to size + extra, keeps its contents, and the new pages are zero if asked |
| `ArenaRuns.Arena.Write` | deps/jemalloc/src/arena.c:605-628 | Owners may write their pages at any time, without the lock, and touch nobody else's run and no map element |
| `ArenaRuns.Arena.constructor` | deps/jemalloc/src/arena.c:1943-1990 | A new arena satisfies the invariant, for any other threads that respect runs and any system |
| `PageMap.Retile` | deps/jemalloc/src/arena.c:97-126 | Replacing what lies between two run boundaries by a local tiling gives a tiling again |
| `LiveRuns.UndisturbedStep` | deps/jemalloc/src/arena.c:189-338 | A step inside one free or owned range leaves every other live run and its memory alone |
| `ArenaRuns.Arena.Drop` | deps/jemalloc/src/arena.c:373-376 | Where the lock is dropped the arena may become anything that keeps the invariant and leaves the runs of this thread alone; before, the thread must have respected the runs of all others since it took the lock |
| `ArenaRuns.Arena.SectionIsFair` | deps/jemalloc/src/arena.c:549-676 | What a thread has done whenever it drops the lock is a fair section: invariant kept, runs of others untouched, new runs its own |
| `ArenaThreads.EveryInterleaving` | deps/jemalloc/src/arena.c:373-376 | In every interleaving of fair sections of any number of threads: tiling, end tags, no equal neighbours, exact trees, counters and truthful unzeroed bits hold whenever the lock is free, and every live run has exactly one owner |
| `ArenaThreads.OthersRespect` | deps/jemalloc/src/arena.c:453-455 | However many sections of other threads run in between, a thread finds its runs as it left them |
| `ArenaThreads.SectionsAreRespectful` | deps/jemalloc/src/arena.c:453-455 | So what every operation assumes of the others holds of any threads that run these operations |
| `ArenaThreads.GuaranteeIsRely` | deps/jemalloc/src/arena.c:373-376 | What one thread guarantees for a section is what any other relies on |
| `ArenaThreads.Moved` | deps/jemalloc/src/arena.c:189-338 | A step that gives up and gets runs of its own keeps the guarantee since the lock was taken |
| `CuckooHash.Ckh.Search` | deps/jemalloc/src/ckh.c:509-526 | Search answers as the finite map does, for every hash function |
| `CuckooHash.Ckh.ISearch` | deps/jemalloc/src/ckh.c:70-88 | A cell is found exactly if the key is in the map, and it holds the map's value |
| `CuckooHash.Ckh.BucketSearch` | deps/jemalloc/src/ckh.c:52-65 | A bucket is searched completely |
| `CuckooHash.NotStored` | deps/jemalloc/src/ckh.c:70-88 | A key that is in neither of its two buckets is not in the map |
| `CuckooHash.OccupiedIsSize` | deps/jemalloc/src/ckh.c:425-431 | The number of occupied cells is the size of the map |
| `CuckooHash.Ckh.CountIsOccupied` | deps/jemalloc/src/ckh.c:425-431 | count is the number of occupied cells |
| `CuckooHash.RepresentsOne` | deps/jemalloc/src/ckh.c:455-476 | The cells determine the map |
| `CuckooHash.Ckh.TryBucketInsert` | deps/jemalloc/src/ckh.c:91-115 | From any random offset: full exactly if all cells of the bucket are occupied, else the map with the item |
| `CuckooHash.Ckh.EvictRelocInsert` | deps/jemalloc/src/ckh.c:123-190 | For all random choices: the table and the item in hand are together the old table and the new item, also when a cycle is detected; that is only where the other bucket of the item in hand is the first one |
| `CuckooHash.Ckh.Alternate` | deps/jemalloc/src/ckh.c:157-178 | An evicted item is tried in its other bucket; in the same one only if both hashes lead there |
| `CuckooHash.TableSwap` | deps/jemalloc/src/ckh.c:148-161 | Swapping the item in hand with a resident keeps every item in one of its two buckets |
| `CuckooHash.Ckh.TryInsert` | deps/jemalloc/src/ckh.c:192-219 | Placed, or the displaced item is returned and nothing else is missing; displacing happens only if both buckets are full |
| `CuckooHash.Ckh.Rebuild` | deps/jemalloc/src/ckh.c:221-242 | The new table holds exactly the items of the old one, or it failed and the old table and count are intact |
| `CuckooHash.PrefixAll` | deps/jemalloc/src/ckh.c:229-238 | Stopping after count items is right: the scanned part then represents the whole map |
| `CuckooHash.Ckh.Grow` | deps/jemalloc/src/ckh.c:244-297 | Doubling, with rollback after each failed rebuild, keeps the map; no size is skipped; on failure the table is the old one |
| `CuckooHash.Ckh.Shrink` | deps/jemalloc/src/ckh.c:299-344 | Halving keeps the map whether or not it succeeds |
| `CuckooHash.Ckh.Insert` | deps/jemalloc/src/ckh.c:454-476 | Success is exactly map update; without memory the table lacks exactly one item; the table grows only if both buckets of the key were full |
| `CuckooHash.Ckh.Remove` | deps/jemalloc/src/ckh.c:478-507 | Exactly map removal, with the removed pair returned; a table of half the size is tried exactly below a quarter of the cells and not below the first size |
| `CuckooHash.InitialCells` | deps/jemalloc/src/ckh.c:367-382 | The first table is the smallest whose three quarters hold the items, as the comment promises, exactly if they do not fill three quarters of such a table to the last item (nor are one item for a table of two cells); then it is twice as large |
| `CuckooHash.BoundGap` | deps/jemalloc/src/ckh.c:375-380 | A table has room for the items but is below the computed bound exactly if they fill three quarters of it, or are one item in two cells |
| `CuckooHash.ThreeItems` | deps/jemalloc/src/ckh.c:375-380 | Three items would fit a table of four cells; it is below the bound |
| `CuckooHash.Ckh.constructor` | deps/jemalloc/src/ckh.c:346-399 | A new table represents the empty map |
| `ReplyReader.SeekNewline` | deps/hiredis/hiredis.c:260-285 | The first CR LF, past lone returns, or nothing |
| `ReplyReader.ReadNumber` | deps/hiredis/hiredis.c:288-313 | The value of the line, with sign; -1 if there is anything but digits |
| `ReplyReader.Reader.Feed` | deps/hiredis/hiredis.c:584-616 | Input is appended to what has been fed so far, unless the reader is in error |
| `ReplyReader.Reader.MoveToNextTask` | deps/hiredis/hiredis.c:330-353 | The task stack is cut back over completed arrays and moved to the next element |
| `ReplyReader.Reader.ProcessLineItem` | deps/hiredis/hiredis.c:355-387 | One step of the reader on an error, status or integer line |
| `ReplyReader.Reader.ProcessBulkItem` | deps/hiredis/hiredis.c:389-440 | One step on a bulk string; with too few bytes nothing is consumed |
| `ReplyReader.Reader.ProcessMultiBulkItem` | deps/hiredis/hiredis.c:442-505 | One step on an array: at stack indices 0 to 7 it opens the first element, at 8 it is an error |
| `ReplyReader.Reader.ProcessItem` | deps/hiredis/hiredis.c:507-554 | One step, with the type byte read once and remembered |
| `ReplyReader.Reader.GetReply` | deps/hiredis/hiredis.c:618-666 | The reply is what a one-shot recursive parser finds at the start of the unread input; no reply exactly if that is incomplete, an error exactly if it is malformed; discarding the consumed part of the buffer changes nothing |
| `ReplyReader.Reader.Drain` | deps/hiredis/async.c:367-372 | Polling until nothing is left gives exactly the replies of the one-shot parser and keeps exactly the leftover |
| `ReplyReader.FeedAndPoll` | deps/hiredis/hiredis.c:584-666 | Feeding in any fragmentation and polling after each piece gives the replies of the joined input, in order |
| `ReplyReader.EncodedStream` | deps/hiredis/hiredis.c:618-666 | The encoding of any list of reply trees with arrays at stack indices 0 to 7, cut anywhere, parses to exactly that list with nothing left over |
| `ReplyReader.ReadsStep` | deps/hiredis/hiredis.c:507-554 | Resuming after a step is the same as having read the input from its start |
| `RespReading.StepMore` | deps/hiredis/hiredis.c:507-554 | A step does not depend on input that arrives later, and waiting consumes nothing twice |
| `RespReading.RunMore` | deps/hiredis/hiredis.c:618-666 | Reading on after more input is the same as having had it all |
| `RespReading.ItemAgrees` | deps/hiredis/hiredis.c:330-554 | The stack machine, started at any item, does what the recursive parser does |
| `RespReading.ManyAgree` | deps/hiredis/hiredis.c:330-353 | The remaining elements of an open array are read as the recursive parser reads them |
| `RespEncoding.RootAgrees` | deps/hiredis/hiredis.c:618-666 | From a fresh stack: complete, pending and failed are the recursive parser's three outcomes |
| `RespEncoding.ParseEncode` | deps/hiredis/hiredis.c:355-505 | Parsing an encoded tree gives the tree back and consumes nothing beyond it |
| `RespEncoding.NegativeLength` | deps/hiredis/hiredis.c:402-475 | A negative bulk length reads as nil; a negative count reads as nil if it is -1, else as an array with this count and no elements |
| `RespEncoding.NotNumber` | deps/hiredis/hiredis.c:288-313 | A line with a byte that is no digit, where a number should be, reads as -1, so that such a length or count is nil |
| `RespEncoding.RepliesOfEncoding` | deps/hiredis/hiredis.c:618-666 | A concatenation of encodings parses to the list of trees |
| `RespEncoding.RepliesMore` | deps/hiredis/hiredis.c:618-666 | More input only adds replies |
| `RespEncoding.ReadDecimal` | deps/hiredis/hiredis.c:288-313 | Reading a printed number gives the number |
| `CommandFormat.IntLen` | deps/hiredis/hiredis.c:669-680 | intlen counts the characters sprintf prints, for negative numbers too |
| `CommandFormat.BulkLen` | deps/hiredis/hiredis.c:683-685 | bulklen is the length of an encoded bulk string |
| `CommandFormat.Build` | deps/hiredis/hiredis.c:872-896 | The bytes written are the RESP array of the arguments and fill exactly the precomputed length; no write leaves the buffer |
| `CommandFormat.FormatCommandArgv` | deps/hiredis/hiredis.c:940-972 | The reader takes from exactly these bytes one array of exactly the given byte strings, in their order: argument j cut to its length, or, without lengths, what comes before its first NUL |
| `CommandFormat.CommandRoundTrip` | deps/hiredis/hiredis.c:940-972 | The reader parses a formatted command back to an array of exactly the given byte strings, whatever follows |
| `CommandFormat.CommandInjective` | deps/hiredis/hiredis.c:940-972 | Different argument lists give different commands |
| `CommandFormat.FormatCommand` | deps/hiredis/hiredis.c:687-896 | With literals, %s, %b and %%: the same bytes as the argument-vector form of the words of the format, and the reader takes those words from exactly these bytes |
| `CommandFormat.FormatMeans` | deps/hiredis/hiredis.c:687-896 | In every format made of words, with any spaces between and around them, word i gives argument i: the literal characters, the C strings of %s, the bytes of %b and a percent sign for %%, in their order |
| `CommandFormat.RestUntouched` | deps/hiredis/hiredis.c:707-735 | The loop with its touched flag makes the maximal runs between spaces |
| `CommandFormat.SplitAtFormatSpaces` | deps/hiredis/hiredis.c:706-750 | Values put in, with or without spaces, never change the number of arguments |
| `DownServers.ReadyExactlyWhenMaster` | action.c:141-268 | A record is ready for exchange exactly if the fetch had pid, role master and, for a backup machine, three parts and not itself down; the properties then are those of this fetch, and an incomplete fetch changes no phase |
| `DownServers.SplitExactly` | action.c:62-70 | Splitting at "_" gives the one list of parts without "_" whose joining by "_" gives the string back, and none for the empty string |
| `DownServers.LookupExactly` | action.c:141-160 | The value found is the one after the first name in a name position that is the one sought, and none if there is none |
| `DownServers.UpdatedExactly` | action.c:141-268 | A record that waits for its properties stops waiting exactly if the reply is complete and says master, with a well-formed backup that is not down, or slave. Each property is what it was or what the reply says under its name, and the backup machine changes only with a reply that says master |
| `DownServers.DownServer.FindField` | action.c:141-160 | The field loop finds the first pair with that name |
| `DownServers.DownServer.UpdateInfo` | action.c:141-268 | The imperative update is the record update that the protocol proofs are about |
| `Exchange.ListedExactly` | action.c:49-101 | A key enters the down list exactly when it is added, well-formed and not on it; it leaves exactly when its server has recovered and the phase of its record is EXCHANGE. Nothing else changes the list |
| `Exchange.RemovedOnly` | action.c:86-101 | A server that recovers before its exchange: its record and its key are gone, and every other record, key, thread and reply on its way is as before |
| `Exchange.GoneForGood` | action.c:86-101 | In no continuation a thread is created or an SMOVE issued for a record that was taken off the list |
| `Exchange.KeyStaysOff` | action.c:49-101 | Nor for any other record of that key, unless the key is added again |
| `Exchange.RecoveredRun` | action.c:49-101 | A run from the start in which a server recovers while the fetch of its properties is on its way: its record leaves the list, and no continuation creates a thread for it |
| `Exchange.CreatedExactly` | action.c:103-139 | A thread is created exactly by the action on a record that is in phase EXCHANGE, has all its properties and says master, if the creation succeeds |
| `Exchange.SmoveExactly` | action.c:382-428 | SMOVE is issued exactly by the action on an EXCHANGED record that waits for it, if the connection accepts the first two commands of the transaction |
| `Exchange.PhaseExactly` | action.c:103-139 | The phase of a record changes only by the write of EXCHANGING after its thread was created and by what its thread writes when the script ends |
| `Exchange.WaitsExactly` | action.c:103-139 | toBeUpdated is set exactly by a failed transaction or by the second write of the thread of a successful script, and cleared exactly by a complete property reply or when an EXCHANGED record has its whole transaction accepted |
| `Exchange.RequestsExactly` | action.c:330-345 | A fetch is sent exactly by the action on a record that waits for its properties, and each is answered once; the same for transactions |
| `Exchange.SuccessExactly` | action.c:111-127 | What the thread takes for success: exit code 0, or any death of the shell by a signal |
| `Exchange.StepKeeps` | action.c:86-139 | Every step of the loop or of a thread keeps the protocol invariant |
| `Exchange.Reachable` | action.c:86-139 | The invariant holds after every interleaving |
| `Exchange.CreateKeeps` | action.c:130-139 | A thread is created only for a record with no busy thread and none that won |
| `Exchange.OneScript` | action.c:130-139 | In every interleaving at most one exchange script runs for a record |
| `Exchange.OneScriptByKey` | action.c:62-83 | Nor do two run for different records of one down server |
| `Exchange.NotFreedUnderThread` | action.c:86-101 | A record is not freed while its thread can still write it |
| `Exchange.SmoveAfterSuccess` | action.c:477-510 | SMOVE is issued only for a record one of whose scripts ended with exit code 0 or was killed by a signal |
| `Exchange.SmoveAfterKilled` | action.c:111-127 | A run from the start in which SMOVE is issued although the script was killed |
| `Exchange.StartedAfterMaster` | action.c:512-544 | Every script was started after a complete fetch had said master, with that fetch's properties |
| `Exchange.ExchangedExactly` | action.c:103-139 | A success ends in EXCHANGED exactly if the loop wrote EXCHANGING before the thread wrote its result |
| `Exchange.Overtaken` | action.c:130-139 | A run from the start in which the thread is faster: success, but the record stays EXCHANGING |
| `Exchange.FailedExactly` | action.c:121-139 | A record whose last script failed is EXCHANGE again, to be retried, exactly if the loop wrote EXCHANGING first; else it is EXCHANGING and stuck |
| `Exchange.OvertakenFailure` | action.c:121-139 | A run from the start that leaves a failed exchange stuck, in every continuation |
| `Exchange.StuckForever` | action.c:512-544 | Such a record is stuck in every continuation: its SMOVE is never issued and it never leaves the down list |
| `Exchange.LossExactly` | action.c:270-324 | A pending SMOVE can be lost exactly when a property fetch for the record is still unanswered |
| `Exchange.LostForGood` | action.c:259-268 | What is lost so, with no thread and no transaction left, is lost for good |
| `Exchange.LossRun` | action.c:259-268 | A run from the start in which a script succeeds, a fetch sent before is answered with another role, and SMOVE is never issued in any continuation |
| `Exchange.NoLoss` | action.c:477-510 | No other event loses a pending SMOVE |
| `Exchange.GivesUpExactly` | action.c:382-428 | With SMOVE sent and nothing else asking for it, it is tried again exactly if EXEC is answered with anything but success, and given up without an answer exactly if the last transaction gets no reply |
| `Exchange.GivenUpForGood` | action.c:389-391 | What is given up so stays so in every continuation: no further SMOVE, and the record never leaves the down list |
| `Exchange.GivesUpRun` | action.c:389-391 | A run from the start in which the script succeeds, SMOVE is sent once, EXEC gets no reply, and nothing follows in any continuation |
| `Gather.Analyzer.UpdateForServer` | gather.c:24-53 | A known target is moved, an unknown one is made new and the list marked stale |
| `Gather.Analyzer.DropOld` | gather.c:55-66 | Targets not named leave, and leave the down list unless their exchange has started |
| `Gather.Analyzer.Rebuild` | gather.c:68-164 | The rebuilt list and query name exactly the live targets in one order, under the next list id |
| `Gather.Analyzer.Refresh` | meta.c:57-71 | After a refresh the targets are exactly the members, survivors are the same objects with their counts and flags, the list id grows exactly when membership changed, list and query are unchanged while it does not, and they name exactly the live targets even when no rebuild ran |
| `Gather.UpExactly` | gather.c:196-203 | A value says UP exactly if it is a string reply in which blanks, a sign unless it is a minus, and zeroes come before a 1 that no digit follows; nil, integers, errors, status and array replies all count against the server |
| `Gather.UpDecimal` | gather.c:196-203 | The printed number n, alone or followed by anything but a digit, says UP exactly if n is 1 |
| `Gather.Analyzer.ProcessTargetState` | gather.c:176-216 | A reply counts only with the current round and list; then each value is charged to the server whose key was at that position of the query this store had been sent, the reply is cast as the ballot of this store, a key newly on the down list belongs to a server that at least quota different stores, this one among them, reported not up in ballots of this round and list, and every such server with a well-formed key is on it. A value that is not a string adds one to the failCount of its server |
| `Gather.Analyzer.FailCountMeans` | gather.c:205-211 | In every valid state a target that took part in the round has failCount equal to the number of stores whose ballot, by the query it answers, is against its key; all ballots are of this round, this list and this query |
| `Gather.AgainstAt` | gather.c:205-212 | A ballot is against the server of slot i exactly if value i + 1 of the reply is not UP |
| `Gather.Analyzer.GatherDone` | gather.c:219-261 | The outstanding query of the store is answered: each value goes to the server whose key was at that position of the keys this store was asked; the ballots grow by exactly this one if it counts and not otherwise, so each store counts at most once per round; anything but a counting array changes nothing else; a value that is not a string is a failure |
| `Gather.FlaggedWithoutRecord` | gather.c:208-211 | For every key without an underscore there is a round in which its server reaches the quota and is flagged as down without a record |
| `Gather.Analyzer.GatherTimer` | gather.c:285-330 | A new round starts with all counts 0 and no ballots, and asks every chosen store; a server flagged down leaves the down list and loses its flag exactly if fewer than quota stores counted against it in the last round and its exchange has not started |
| `Gather.Analyzer.SendQueries` | gather.c:263-283 | Every chosen store has one outstanding query, tagged with round and list, that asks for exactly the keys of the list in its order |
| `Gather.Analyzer.GatherTimeout` | gather.c:166-174 | A timed-out query is forgotten and nothing else |
| `Gather.Analyzer.AddToDownList` | action.c:49-84 | A key of three parts not yet there becomes a record in state EXCHANGE; a malformed key is refused |
| `Gather.Analyzer.RmFromDownList` | action.c:86-101 | Removed unless an exchange has started |
| `Gather.DroppedMeans` | gather.c:58-64 | What the clearing loop takes off the down list, whatever its order |
| `TimerHeap.UpStep` | deps/libev/ev.c:1747-1766 | Moving a smaller element one level up mends its edge and breaks none below |
| `TimerHeap.DownStep` | deps/libev/ev.c:1666-1708 | Moving a larger element down past its smallest child likewise |
| `TimerHeap.RootIsLeast` | deps/libev/ev.c:2511-2523 | The heap condition puts the least time at the root |
| `TimerHeap.Adjust` | deps/libev/ev.c:1769-1776 | adjustheap picks the direction that mends |
| `Timers.ParentSelf` | deps/libev/ev.c:1661-1664 | Only the root is its own parent, with truncating division |
| `Timers.Loop.Upheap` | deps/libev/ev.c:1747-1766 | Orders the heap, permutes its entries and sets exactly the back-indices |
| `Timers.Loop.FindMinChild` | deps/libev/ev.c:1677-1695 | The fast path for four children and the slow one find the first smallest child |
| `Timers.Loop.Downheap` | deps/libev/ev.c:1666-1708 | Orders the heap, permutes its entries and sets exactly the back-indices |
| `Timers.Loop.Reheap` | deps/libev/ev.c:1779-1788 | Orders entries in any arrangement |
| `Timers.Loop.TimerStart` | deps/libev/ev.c:3262-3284 | Adds exactly this entry at its time after now, with its priority brought into range; no effect if active |
| `Timers.Loop.TimerStop` | deps/libev/ev.c:3286-3313 | Removes exactly this entry, keeps the remaining time, clears a pending event |
| `Timers.Loop.TimerAgain` | deps/libev/ev.c:3316-3341 | Rescheduled, started or stopped as repeat says, with no pending event left |
| `Timers.Loop.ClearPending` | deps/libev/ev.c:3167-3175 | The queued event is replaced by the dummy watcher; every other position stays |
| `Timers.Loop.FeedEvent` | deps/libev/ev.c:1414-1429 | A watcher is queued once, with events or-ed in, at the recorded position |
| `Timers.Loop.FeedReverseDone` | deps/libev/ev.c:1438-1444 | Feeding back to front puts earlier watchers nearer the end of their queue |
| `Timers.Loop.TimersReify` | deps/libev/ev.c:2713-2748 | Terminates; takes each timer due before now exactly once, in the order of due times, afterwards none is due. A repeating timer is next due at its last due time plus its interval if that is not past, else now, so its due times are at least the interval apart; a timer that does not repeat is stopped |
| `Timers.Loop.HigherPriorityFirst` | deps/libev/ev.c:2671-2692 | Of two pending watchers the one of higher priority is called first, among equals the one fed last; whatever the callbacks do, the higher priority is called first |
| `Queues.Clamped` | deps/libev/ev.c:3194-3201 | The priority in range that lies between the given one and every other in range |
| `Timers.Loop.CalledInDueOrder` | deps/libev/ev.c:2671-2748 | Of two timers of one priority that were not pending, the one due first is called first, whatever the callbacks called meanwhile do |
| `Queues.CallOrder` | deps/libev/ev.c:2671-2685 | Higher priorities first, and within one from the end of the queue |
| `Queues.CalledAt` | deps/libev/ev.c:2671-2685 | Every queued event is called at its time |
| `Timers.Loop.InvokePending` | deps/libev/ev.c:2671-2685 | For any callbacks, which may feed, start, stop and restart any watchers: every event queued at the beginning is called exactly once, higher priorities first and each queue from its end; its watcher has been replaced by the dummy exactly if an earlier callback stopped it; nothing else is called but what an earlier callback fed; priorities never rise during a pass, and what is queued afterwards was fed from a callback of lower priority. With callbacks that leave the loop alone the calls are exactly those of the queues in their order, and nothing stays pending |
| `Timers.Loop.InvokeNext` | deps/libev/ev.c:2677-2683 | The last entry is taken off its queue, its watcher is no longer pending, and its callback leaves every queued entry at its place but clears those of watchers it stops |
| `Timers.Loop.Callback` | deps/libev/ev.c:2682-2682 | Whatever a callback does through the interface keeps the heap, the queues and all back-indices valid |
| `Invocation.PassStep` | deps/libev/ev.c:2677-2684 | One call keeps what the pass promises: the entries left are at their places, those called were called in order, the others were fed |
| `Timers.Advance` | deps/libev/ev.c:2719-2742 | Taking the root leaves the timers split into taken, still due and rescheduled |
| `Timers.TakenAll` | deps/libev/ev.c:2713-2748 | When the root is not due, all due timers have been taken |
| `IoWatch.Backend.Modify` | deps/libev/ev_poll.c:51-86 | The entry for the descriptor says the new interest, all others are as before; polls and pollidxs stay inverse and no entry asks for nothing |
| `IoWatch.Backend.Remove` | deps/libev/ev_poll.c:76-85 | Moving the last entry into the hole keeps polls and pollidxs inverse, also when they are the same |
| `IoWatch.Loop.FdChange` | deps/libev/ev.c:1551-1564 | A descriptor is listed as changed at most once, exactly while it has flags set |
| `IoWatch.Loop.IoStart` | deps/libev/ev.c:3220-3241 | The watcher is active and first in the list of its descriptor, which is marked for reconciliation, also as newly set if it is; no effect if active |
| `IoWatch.Loop.IoStop` | deps/libev/ev.c:3243-3260 | The watcher is inactive and taken out of the list of its descriptor, which is marked for reconciliation; no effect if inactive |
| `IoWatch.Loop.ReifyOne` | deps/libev/ev.c:1520-1546 | One change reconciled: recorded and polled interest agree with the watchers of the descriptor |
| `IoWatch.Loop.FdReify` | deps/libev/ev.c:1491-1549 | Afterwards the poll array has exactly one entry for each descriptor whose active watchers ask for something, with that interest, and pollidxs is its inverse, after any history of starts and stops |
| `IoWatch.OrAll` | deps/libev/ev.c:1536-1537 | The recorded interest is the union over the watchers |
| `HashTable.Table.Find` | uthash.h:94-105 | The element with that key, or none exactly if there is none |
| `HashTable.Table.FindInBucket` | uthash.h:580-591 | The chain is searched completely |
| `HashTable.Table.Add` | uthash.h:162-184 | The element is appended in application order and found in its bucket; chains and list hold the same elements with right links and counts; the buckets are doubled exactly if the element's bucket overflows |
| `HashTable.Table.Delete` | uthash.h:204-237 | Exactly this element leaves the list and its chain, order kept; the number of buckets stays |
| `HashTable.Table.Expand` | uthash.h:649-695 | Doubling moves every element to the bucket of its hash value; nonideal_items, expand_mult, ineff_expands and noexpand are what their definitions say |
| `HashTable.Redistribute` | uthash.h:663-682 | The node-by-node move keeps all elements, rebuilds all chain links and counts those beyond the ideal length |
| `HashTable.ExcessStep` | uthash.h:671-675 | A further element of a chain is non-ideal exactly if the chain is at the ideal length |
| `HashTable.MaskIsRemainder` | uthash.h:187-190 | Masking with a power of two less one is the remainder |
| `HashTable.UnlinkFrom` | uthash.h:608-618 | The chain without the node, links and count right, wherever it was |
| `HashTable.TakeOut` | uthash.h:213-231 | The list without the node, with the right head and tail |
| `HashTable.Table.Sort` | uthash.h:702-779 | For every total preorder: the elements are sorted, equal ones in their old order, none lost, and links, head and tail are right |
| `HashSort.SortList` | uthash.h:702-779 | The relinking loops terminate with the value-level merge sort of the list, with right prev and next links |
| `HashSort.OnePass` | uthash.h:712-774 | One pass is one value-level pass; it made at most one merge exactly if twice the run length covers the list |
| `HashSort.MergeRuns` | uthash.h:728-766 | Merging in place builds the value-level merge of the two runs |
| `SortSpec.MergeSorted` | uthash.h:728-766 | Merging keeps order and stability |
| `SortSpec.PassBlocks` | uthash.h:712-768 | A pass over sorted blocks of k leaves sorted blocks of 2k |
| `SortSpec.SortIsStable` | uthash.h:702-779 | The merge sort is a stable sorted permutation |
| `SortSpec.ArrangementUnique` | uthash.h:702-779 | There is only one such arrangement |
| `Extents.SearchSize` | deps/jemalloc/src/chunk.c:61-68 | The extent taken is the smallest, then lowest, that is large enough |
| `Recycler.WrapExactly` | deps/jemalloc/src/chunk.c:57-60 | The overflow check fires exactly if the 64-bit sum wraps |
| `Extents.LeadFacts` | deps/jemalloc/src/chunk.c:69-73 | Every extent of the searched size has room for the aligned block, with whole chunks before and after it |
| `RecycleRuns.StepKeeps` | deps/jemalloc/src/chunk.c:62-108 | Every locked section keeps all extents, those in the trees, those given out, those held in a gap and those lost, aligned and disjoint |
| `RecycleRuns.AlwaysSound` | deps/jemalloc/src/chunk.c:62-108 | So after any interleaving of requests, second sections, failures and frees of any number of threads; what is held in a gap is apart from the trees |
| `RecycleRuns.BytesKept` | deps/jemalloc/src/chunk.c:39-261 | No section loses or duplicates a byte: every byte the system gave is in exactly one extent until it is unmapped |
| `RecycleRuns.SeamBorn` | deps/jemalloc/src/chunk.c:94-107 | Free extents come to be adjacent in exactly one way: a second section puts its trail back and free space begins right behind it |
| `RecycleRuns.BehindStep` | deps/jemalloc/src/chunk.c:94-107 | While a block is held in the gap, whether free space begins right behind it is changed exactly by freeing a block there and by handing that space out from its beginning |
| `RecycleRuns.NeverAdjacentExactly` | deps/jemalloc/src/chunk.c:39-261 | In a run no two free extents are ever adjacent, exactly if no event puts back the trail of a gap in which an earlier event freed the block right behind it without its being handed out again |
| `RecycleRuns.MissedMerge` | deps/jemalloc/src/chunk.c:94-107 | A run from nothing that leaves adjacent free extents |
| `Recycler.Chunks.FirstSection` | deps/jemalloc/src/chunk.c:62-95 | The section in place is the step: both trees stay equal; it comes to nothing exactly for a base request, an overflow or when nothing fits; else the block is this thread's, or is held with its trail when there is a lead and a trail |
| `Recycler.Chunks.SecondSection` | deps/jemalloc/src/chunk.c:101-108 | The section in place is the step: the trail is in both trees, the block is this thread's |
| `Recycler.Chunks.Recycle` | deps/jemalloc/src/chunk.c:39-122 | By one thread without interruption. Success: an aligned block inside the best-fitting extent, and exactly the block is no longer free. Failure: exactly which requests fail, and that a failed node allocation loses the space behind the block. No free extents come to be adjacent |
| `RecycleRuns.TakeOK` | deps/jemalloc/src/chunk.c:74-107 | Lead, block and trail made of an extent are aligned and disjoint from everything |
| `Extents.CarvedSeams` | deps/jemalloc/src/chunk.c:74-107 | Taking a block out makes no free extents adjacent |
| `Extents.CarvedFree` | deps/jemalloc/src/chunk.c:74-107 | Free bytes: what was free but the block |
| `Recycler.NodeFailsAt` | deps/jemalloc/src/chunk.c:84-101 | The node allocation matters exactly if there is a lead and a trail |
| `Recycler.Chunks.Record` | deps/jemalloc/src/chunk.c:191-261 | The section in place is the step: the block becomes free space, merged on both sides in both trees, and where free extents are adjacent is unchanged; lost only if a node is needed and there is none |
| `Extents.RecordedSound` | deps/jemalloc/src/chunk.c:207-259 | Merging with the touching neighbours keeps the extents aligned and disjoint |
| `Extents.RecordedSeams` | deps/jemalloc/src/chunk.c:207-259 | And leaves no adjacency that was not there |
| `Extents.RecordedFree` | deps/jemalloc/src/chunk.c:207-259 | Free bytes: exactly the block more |
| `Recycler.Chunks.Dealloc` | deps/jemalloc/src/chunk.c:263-285 | Statistics drop by the block; it is recorded if it cannot be unmapped |
| `Recycler.Chunks.Alloc` | deps/jemalloc/src/chunk.c:130-189 | A recycled block exactly if the request is no base request, does not overflow, fits an extent and needs no node that is missing; else what the system gives, which then is owned; and how far curchunks is off after a failed node allocation |
| `AsyncReplies.Context.Push` | deps/hiredis/async.c:180-197 | Appended at the tail of the linked queue |
| `AsyncReplies.Context.Shift` | deps/hiredis/async.c:199-213 | The head is taken; the tail is cleared with the last |
| `AsyncReplies.Context.Command` | deps/hiredis/async.c:517-575 | Accepted exactly if teardown has not begun |
| `AsyncReplies.Context.RunCallback` | deps/hiredis/async.c:215-222 | The function in hand is called once with its reply; exactly the commands it issues before it frees the context are accepted, in their order, and none once teardown has begun |
| `AsyncReplies.Context.AsyncFree` | deps/hiredis/async.c:273-278 | Tears down at once, or leaves a mark when a callback is running |
| `AsyncReplies.Context.Teardown` | deps/hiredis/async.c:225-265 | Every waiting callback is run with NULL and the context is freed |
| `AsyncReplies.Context.ProcessCallbacks` | deps/hiredis/async.c:361-423 | Replies go to callbacks in order, all of them unless a callback frees the context; an error or a mark ends in teardown, and nothing else does |
| `AsyncReplies.Context.EachServedOnce` | deps/hiredis/async.c:225-423 | Once freed, each accepted command has been served exactly once, in issue order: the k-th with the k-th reply, or with NULL if there was none |
| `AsyncReplies.Context.EachCalledOnce` | deps/hiredis/async.c:225-423 | Once freed, the calls of callback functions made are exactly one for each accepted command that has one, in issue order, with its own reply or NULL |
| `AsyncReplies.CalledIsExpected` | deps/hiredis/async.c:215-222 | Calling each served command that has a callback gives the calls expected from the accepted commands and the replies |
| `Quoting.CatRepr` | sds.c:379-405 | Appends the quoted form |
| `Quoting.ReadToken` | sds.c:430-478 | The token loop reads what the recursive scanner reads; it fails exactly for an unterminated quote or one not followed by a space |
| `Quoting.SplitArgs` | sds.c:419-502 | The argument list of the line, or NULL for unbalanced quotes: the imperative loop computes the function that the next rows say all about |
| `Quoting.SplitExactly` | sds.c:419-502 | A line without NUL splits into a list exactly if it is written as words separated by blanks that have these values, where a word is a bare run of bytes, a quoted string, or a bare run that ends in a quoted string, and a bare run ends only at space, tab, return, newline or the end; it is refused exactly if it is not written so |
| `Quoting.WrittenSplits` | sds.c:419-502 | Every line written as such words, with any blanks between and around them, splits into exactly their values: bare words, quoted strings with escapes, and mixtures |
| `Quoting.SplitToNul` | sds.c:419-502 | What follows a NUL does not matter |
| `Quoting.EscapedMeans` | sds.c:379-405 | What sdscatrepr writes for a byte is printable: for a printable byte and for newline, return, tab, bell and backspace the byte itself or a backslash with what the splitter reads as this byte, else a backslash, an x and its two hexadecimal digits |
| `Quoting.QuotedPrints` | sds.c:379-405 | Every byte of a quoted string is printable |
| `Quoting.QuotedToken` | sds.c:379-405 | A quoted string is one token that ends at its closing quote |
| `Quoting.SplitJoined` | sds.c:379-502 | Quoting any list of byte strings, joining by spaces and splitting gives the list with only unsafe bytes changed |
| `Quoting.RoundTripExactly` | sds.c:379-502 | The list comes back unchanged exactly if all bytes are printable or one of newline, return, tab, bell and backspace |

## Left out

Weaker than the source, or on values where the source works in place:

- Exchange.Step: the event loop's callbacks and the thread are steps on values, except updateDownServerInfo, which is a method; a step of the loop is atomic but for the creation of the thread and the write of EXCHANGING.
- Exchange.OneScript: assumes that replies reach live records; the isNoUse path of updateExchangeStateDone (action.c:273-277) is not modelled.
- DownServers.DownServer.UpdateInfo: action.c:249 takes sdslen of a reply string that is not an sds; the model splits the whole string.
- ArenaRuns.Arena.Palloc: sizes are in whole pages, and the page counts nactive and ndirty are not bounded by the word size; npurgatory is.
- ArenaRuns.Arena.MaybePurge: the bound on dirty pages is stated for operations during which nobody else steps in.
- ArenaRuns.Arena.Drop: owners write their pages without the lock; what other threads write while this one holds it, they write in the model when it drops it.
- ArenaRuns.Arena.AllocBinRun: the regions of a small run and their bitmaps, and the bins' current and non-full runs, are not modelled.
- ArenaRuns.Arena.DallocBinRun: that the pages beyond `past` were never handed out is a precondition, because the regions are not modelled.
- ArenaRuns.Arena.ChunkPurge: the page map of a chunk is a sequence that is reassigned, and the held runs are a sequence instead of links in the map elements.
- Avail.NSearch: the red-black trees are ordered sets, here and in the recycler.
- CuckooHash.Ckh.EvictRelocInsert: the eviction loop takes a number of steps, after which the outcome is Unfinished; that it ends rests on the pseudo-random choices. The bucket is a remainder, which is the mask for a power of two.
- CuckooHash.Ckh.Insert: the map property is claimed on success; what is lost without memory is stated instead.
- ReplyReader.ReadNumber: no 64-bit overflow of the number, and no 32-bit overflow of lengths and cursor positions.
- ReplyReader.Reader.GetReply: replies are built as values by the default object functions; user-supplied functions and allocation failure are not modelled.
- CommandFormat.FormatCommand: formats handed on to printf are excluded, and so are lengths beyond an int.
- Gather.UpExactly: atoi of a number that does not fit an int is undefined in C; here numbers are unbounded.
- AsyncReplies.Context.ProcessCallbacks: not for publish and subscribe, monitoring, a clean disconnect with replies pending, or error replies a server sends unasked.
- Gather.Analyzer.GatherDone: at most one outstanding gather per store is assumed, and members of a refresh are distinct.
- Gather.Analyzer.Refresh: the target maps are sequences in insertion order, which is the order HASH_ITER visits; the table itself is proved separately.
- Timers.Loop.InvokePending: callbacks act on timers of this loop through feed, start, stop and again; one that runs the loop itself is not modelled. The script of their actions is finite.
- Timers.Loop.TimersReify: times are reals, without rounding.
- IoWatch.Loop.FdReify: event masks are sets of bits; array growth is sequence growth.
- IoWatch.Loop.IoStop: clear_pending is proved in Timers and not repeated.
- HashTable.Table.Add: the Bloom filter, several handles in one element, and the bit width of counters are not modelled; the hash function is any function.
- Recycler.Chunks.Recycle: page contents, the zero flag and the radix tree are not modelled. The steps of other threads come between the sections in RecycleRuns; this method and Alloc run theirs one after the other.
- Quoting.SplitArgs: allocation failure is not modelled.

Not modelled at all:

- Sockets, mmap, madvise, sbrk, threads' creation, the clock and logging: their results are parameters.
- Small-object regions, thread caches, huge allocations, profiling, redzones and statistics of jemalloc.
- Periodic, idle, child, signal and stat watchers, and the epoll, kqueue, port, select and win32 backends of libev.
- Connection queues and reconnection, configuration parsing, the log ring, engine/*.c, linenoise.
- The remaining string operations of sds.c, and the blocking interface of hiredis: they would only add easy members.
