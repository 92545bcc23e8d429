# Verified models of memcached's core

This project models the memcached server under `vessel/apps/memcached` and proves
what its data structures and protocols guarantee over all inputs and all runs.
Each component is a specification (values and functions), a set of lemmas about it,
and, where the C code updates memory step by step, a class or method that does the
same updates and is proved to do what the specification says.

- **CRC-32C** (`Crc32cSpec`, `Crc32cPoly`, `Gf2`, `Crc32c`): the table-driven and the
  three-stream hardware implementation both equal the bit-at-a-time CRC of section
  12.1 of RFC 3720. The crc32 instructions are modelled as 8 and 64 single-bit steps.
  `Crc32cPoly` proves that this CRC is the remainder of polynomial division.
- **Hash table** (`AssocSpec`, `AssocTable`, `AssocLocks`): the incrementally
  expanding table always represents one map, and operations under item locks are
  linearizable against bucket migration. The hash function is an arbitrary function.
  This port never starts the expansion thread (memcached.c:6564); the model is of the
  code in `assoc.c` as it would run.
- **Page store** (`Extstore*`): concurrent writers, flushes, reads, deletes and
  evictions as steps under page and engine locks; reads return what was written. The
  engine keeps its pages on lists through their one `next` pointer. The store is
  compiled out in this configuration but self-contained.
- **Slab allocator and page mover** (`Slabs*`): allocation accounting, the memory
  bound, and the multi-pass mover that empties a live page while workers allocate,
  upload, link, fetch and free. Critical sections under the slabs lock are single
  steps; moving an item is two steps, because the lock is dropped in between. The
  free lists are followed down to the pointers in memory.
- **Items and LRU** (`Items*`, `LruSpec`, `Links`, `LruQueue`, `Crawler`): the life of
  an item from allocation to free, the doubly linked queues, and the LRU crawler.
- **CAS and counters** (`CasTypes`, `Cas`, `CasServer`, `Strtoull`): no lost updates
  for `gets` and `cas`; `incr` and `decr` from the text of a value to the text of the
  next.
- **Byte plumbing** (`BipbufferSpec`, `Bipbuffer`, `UdpSpec`, `Udp`, `Chunks`,
  `Decimals`, `Itoa`).

Clocks, hash values, trylock results, malloc and pread/pwrite outcomes, expiry and
flush verdicts, and the memory behind a value are parameters of the steps. C arrays of
pointers and linked nodes are modelled by maps from addresses to contents, with address
0 for null.

Verify everything with `dafny verify dfyconfig.toml`.

## Where code and promise differ

- `bipbuffer.h` promises that a poll for more than there is returns NULL. The code
  only checks the end of the array. `OverlongPollBreaks` shows an accepted poll that
  breaks the buffer; `PollSoundIff` states exactly when a poll is a dequeue.
- `gets` reads the CAS id after the item lock is dropped. An incr or decr that
  replaces an item somebody holds stores the new id into the old item as well, so a
  `gets` in progress can print the old value with the new id. `LostIncrement` is such a
  run; `GetsThenCas` states exactly when a STORED `cas` replaces the value that was
  fetched. Between the printing of the id and the `cas` no update is ever lost
  (`CasStoredMeansUntouched`).
- The free space of a `bipbuf_t` is returned as an int. In a buffer of 2^31 bytes or
  more an offer can be refused although a request for it was granted
  (`OfferRefusedAfterRequest`); `RequestThenOffer` states exactly when. No such state
  is reachable from an empty buffer (`RunRequestThenOffer`).
- A record of zero bytes in the page store can lie where a write buffer ends; reading
  it then fails an assert of `_read_from_wbuf`. `EmptyReadFails` is such a run, and
  `RunNeverAsserts` states exactly which reads fail. memcached writes no such record.
- `memory_allocate` adds a page to `mem_malloced` even when malloc fails. After
  failures the total is larger than the memory in use, and classes are refused pages
  below the limit (`RefusedIff`). `FailedMallocsCount` is such a run for any number of
  failures; `RunMemoryTotal` states exactly when the total is the size of the pages,
  and `RunMemoryBound` how far it can exceed the limit.
- `safe_strtoull` looks for a minus sign up to the next zero byte, beyond the value it
  reads, once a number reaches 2^63. So an `incr` or `decr` of such a counter can be
  refused as non-numeric (`BigNumberRefused`); `CounterRefused` states exactly when. A
  value that starts with a minus sign can be accepted (`MinusNumber`).

## Model

| member | source | states |
|---|---|---|
| Crc32cSpec.StepXor | vessel/apps/memcached/crc32c.c:44-74 | One step of the bit-at-a-time CRC-32C register (section 12.1 of RFC 3720) is linear over xor, for all register pairs. |
| Crc32cSpec.ZerosXor | vessel/apps/memcached/crc32c.c:137-141 | Feeding n zero bits is linear over xor for every n. |
| Crc32cSpec.ZerosAdd | vessel/apps/memcached/crc32c.c:137-141 | Zero-bit operators compose by adding lengths, which is why squaring doubles the length. |
| Crc32cSpec.RegisterAppend | vessel/apps/memcached/crc32c.c:79-107 | The register after a ++ b is the register of b continued from that of a. |
| Crc32cSpec.RegisterXor | vessel/apps/memcached/crc32c.c:253-261 | Starting from x xor y is the same as starting from x and xoring y advanced over as many zero bits as the message has. |
| Crc32cSpec.JoinThree | vessel/apps/memcached/crc32c.c:253-261 | Three equally long streams computed independently, two of them from zero, join into the sequential register by two zero-shifts and two xors. |
| Crc32cSpec.CrcAppend | vessel/apps/memcached/crc32c.c:79-107 | The CRC of a ++ b is the CRC of b started from the CRC of a, inversions included. |
| Crc32cPoly.CrcIsRemainder | vessel/apps/memcached/crc32c.c:44-107 | The inverted CRC is the remainder modulo x^32 + x^28 + x^27 + x^26 + x^25 + x^23 + x^22 + x^20 + x^19 + x^18 + x^14 + x^13 + x^11 + x^10 + x^9 + x^8 + x^6 + 1 over the field of two elements of the message times x^32, with the inverted earlier CRC in front: it has degree below 32, is congruent to that, and is the only polynomial that is. |
| Crc32cPoly.RegisterIs | vessel/apps/memcached/crc32c.c:44-107 | For every start value and message the register is congruent to the start value times x^(8n) plus the message times x^32. |
| Crc32cPoly.StepIs | vessel/apps/memcached/crc32c.c:57-64 | One bit step multiplies by x and takes the polynomial away exactly when the degree reaches 32. |
| Crc32cPoly.PolyIs | vessel/apps/memcached/crc32c.c:44-45 | The constant of the source is that polynomial, lowest bit first, without its leading term. |
| Crc32cPoly.Unique | vessel/apps/memcached/crc32c.c:44-107 | Two polynomials of degree below 32 that are congruent are equal, so there is one remainder. |
| Crc32cPoly.StartIs | vessel/apps/memcached/crc32c.c:79-84 | A CRC started from zero puts the 32 coefficients of the all-ones register in front of the message. |
| Gf2.MatrixTimes | vessel/apps/memcached/crc32c.c:113-125 | The shifting loop computes the GF(2) matrix-vector product. |
| Gf2.TimesRunsZeros | vessel/apps/memcached/crc32c.c:113-125 | A matrix whose rows are the images of the unit vectors maps every register value to its value after n zero bits. |
| Gf2.MatrixSquare | vessel/apps/memcached/crc32c.c:129-135 | Squaring the operator for n zero bits gives the operator for 2n zero bits. |
| Gf2.OneZeroBitOp | vessel/apps/memcached/crc32c.c:148-154 | The polynomial row and the shifted unit rows are the operator for one zero bit. |
| Gf2.ZerosOp | vessel/apps/memcached/crc32c.c:142-177 | The even/odd squaring loop yields the operator for 8 * p zero bits, p the largest power of two not above len, and so for len itself when len is a power of two. |
| Gf2.PowerFloorIsLargest | vessel/apps/memcached/crc32c.c:137-141 | p is the largest power of two at most len, and equals len exactly on powers of two. |
| Crc32c.InitSw | vessel/apps/memcached/crc32c.c:51-74 | Table k maps a byte to the register after that byte and k zero bytes. |
| Crc32c.RegisterSlices | vessel/apps/memcached/crc32c.c:85-105 | The bytewise register of any message is the xor of one table slice per byte plus the shifted-down start value. |
| Crc32c.SliceEight | vessel/apps/memcached/crc32c.c:90-101 | Eight lookups of one loaded word xor to the register after its eight bytes. |
| Crc32c.SwEight | vessel/apps/memcached/crc32c.c:90-101 | One round of the slicing loop advances the register over eight bytes. |
| Crc32c.Sw | vessel/apps/memcached/crc32c.c:79-107 | For every start value, byte string and alignment of the buffer, crc32c_sw is the bit-at-a-time CRC. |
| Crc32c.InitZeros | vessel/apps/memcached/crc32c.c:181-193 | The four byte tables hold the zero operator applied to each byte position. |
| Crc32c.ShiftRunsZeros | vessel/apps/memcached/crc32c.c:196-200 | crc32c_shift on those tables maps any register value to its value after len zero bytes. |
| Crc32c.Crc32qIsRegister | vessel/apps/memcached/crc32c.c:288-293 | Sixty-four bit steps on a little-endian word are the register over its eight bytes. |
| Crc32c.HwJoin | vessel/apps/memcached/crc32c.c:259-260 | A shift and an xor join a register with the next stream's. |
| Crc32c.HwBlock | vessel/apps/memcached/crc32c.c:243-283 | Three interleaved streams and two joins advance the register over 3 * len bytes. |
| Crc32c.Hw | vessel/apps/memcached/crc32c.c:224-307 | For every start value, byte string and alignment, crc32c_hw is the bit-at-a-time CRC. |
| Crc32c.InitHw | vessel/apps/memcached/crc32c.c:217-221 | The LONG and SHORT tables are the ones crc32c_hw needs. |
| AssocSpec.FindAgrees | vessel/apps/memcached/assoc.c:73-97 | In a table that represents a map, expanding or not, a find answers as the map does. |
| AssocSpec.InsertAgrees | vessel/apps/memcached/assoc.c:154-171 | Inserting an absent key extends the represented map by exactly that item. |
| AssocSpec.DeleteAgrees | vessel/apps/memcached/assoc.c:173-190 | Deleting removes exactly that key from the represented map. |
| AssocSpec.ExpandAgrees | vessel/apps/memcached/assoc.c:121-140 | Starting an expansion keeps the represented map. |
| AssocSpec.MigrateAgrees | vessel/apps/memcached/assoc.c:210-244 | Moving one bucket keeps the represented map, each key in exactly one chain. |
| AssocSpec.MovedBucketsEmpty | vessel/apps/memcached/assoc.c:215-224 | Every bucket below expand_bucket is empty in the old table. |
| AssocSpec.MigrationDone | vessel/apps/memcached/assoc.c:224-234 | Expansion ends exactly with the last old bucket, and then the old table is empty. |
| AssocSpec.StepAgrees | vessel/apps/memcached/assoc.c:73-190 | Every operation and every single-bucket migration commutes with the map it stands for. |
| AssocSpec.RunAgrees | vessel/apps/memcached/assoc.c:73-190 | After any mix of inserts, finds, deletes, expansions and migrations the two tables represent exactly the map of the run so far. |
| AssocSpec.RunFindAgrees | vessel/apps/memcached/assoc.c:73-97 | At every point of such a run a find answers as on that map. |
| AssocSpec.MigrationProgress | vessel/apps/memcached/assoc.c:205-244 | An expansion ends after exactly as many bucket moves as the old table had buckets, whatever happens in between. |
| AssocTable.HashTable.Find | vessel/apps/memcached/assoc.c:73-97 | The chain walk in the table chosen by expand_bucket returns the map's answer. |
| AssocTable.HashTable.Insert | vessel/apps/memcached/assoc.c:154-171 | The in-place insert represents the extended map. |
| AssocTable.HashTable.Delete | vessel/apps/memcached/assoc.c:173-190 | The in-place delete, through the pointer to the predecessor, represents the map without the key, and reports whether it was there, which the source asserts. |
| AssocTable.HashTable.StartExpand | vessel/apps/memcached/assoc.c:121-140 | Swapping in a table of twice the size, or failing to get one, keeps the map. |
| AssocTable.HashTable.MoveBucket | vessel/apps/memcached/assoc.c:210-244 | The relinking loop over one bucket keeps the map and advances expand_bucket. |
| AssocLocks.DefaultSizesAccepted | vessel/apps/memcached/thread.c:783-806 | The lock table has fewer bits than the default hash table for every thread count. |
| AssocLocks.OneLockCovers | vessel/apps/memcached/assoc.c:210-220 | The lock of the migrating bucket is the lock of each of its items and of both buckets they can land in. |
| AssocLocks.ChainHasOneLock | vessel/apps/memcached/thread.c:97-115 | Two hash values that share a chain share an item lock. |
| AssocLocks.AdvanceKeepsRoute | vessel/apps/memcached/assoc.c:224-226 | expand_bucket++ never changes the table chosen for a hash value under another item lock. |
| AssocLocks.ActIsAtomic | vessel/apps/memcached/assoc.c:73-190 | A find, insert or delete under its key's lock, on the route chosen earlier under that lock, acts on the represented map as one step. |
| AssocLocks.RunLinear | vessel/apps/memcached/assoc.c:205-244 | Over every interleaving of workers and the migrating thread the tables represent the sequential map; a worker reads expanding and expand_bucket at different times, and the thread writes them at different times. |
| AssocLocks.RunAnswers | vessel/apps/memcached/assoc.c:73-97 | Every answer a worker gets in such a run is the map's answer at that point. |
| ExtstoreProofs.InitInv | vessel/apps/memcached/extstore.c:195-311 | The state extstore_init builds satisfies the invariant: free list, buffer and io stacks, active pages. |
| ExtstoreProofs.AssertsHold | vessel/apps/memcached/extstore.c:319-726 | In a state with the invariant, the asserts and pointer uses on the path of a possible step of a writer, io thread, reader or maintenance thread hold if and only if the step is not a read of zero bytes where a write buffer ends. |
| ExtstoreProofs.SubmitHasIo | vessel/apps/memcached/extstore.c:403-424 | The io stack is never empty when a buffer is submitted. |
| ExtstoreProofs.BucketOfFull | vessel/apps/memcached/extstore.c:435-485 | A write request that finds its page full finds it at the head of its bucket, so a new page can be put in front. |
| ExtstoreProofs.AllocateKeeps | vessel/apps/memcached/extstore.c:319-341 | Taking a page off the free list keeps every page except page 0 on exactly one list and page_free equal to the free list's length. |
| ExtstoreProofs.FreeKeeps | vessel/apps/memcached/extstore.c:729-769 | Freeing a page that nobody reads or writes keeps the invariant and invalidates what was handed out for it. |
| ExtstoreProofs.FlushedRecord | vessel/apps/memcached/extstore.c:372-398 | After a buffer is written and handed back every record that lay in it is found in the file. |
| ExtstoreProofs.PreadExact | vessel/apps/memcached/extstore.c:691-697 | What a read in flight finds in the file is the bytes of the write it was handed. |
| ExtstoreProofs.StepKeeps | vessel/apps/memcached/extstore.c:319-856 | Every step that gets past its asserts keeps the invariant: written, allocated and buffer bounds, lists, stacks, versions, contents of all records. The scan reads active and free in two steps, between which an allocation may take the page. |
| ExtstoreProofs.RunInv | vessel/apps/memcached/extstore.c:319-856 | The invariant holds throughout every run of writes, flushes, reads, deletes, closes and evictions. |
| ExtstoreProofs.RunNeverAsserts | vessel/apps/memcached/extstore.c:319-726 | Over every run a possible step meets no failing assert, and extends the run, if and only if it is not a read of zero bytes where a buffer ends; a caller that never reads zero bytes is safe. |
| ExtstoreProofs.EmptyReadFails | vessel/apps/memcached/extstore.c:610-613 | In every store that extstore_init accepts with at least two pages of nonzero size: six steps from the start to a read that fails the assert. Fill a buffer, write zero bytes into it, read them back. |
| ExtstoreProofs.ReadsAreExact | vessel/apps/memcached/extstore.c:610-726 | A read of what an earlier write handed out, of any length, misses or returns exactly the bytes of that write. |
| ExtstoreProofs.PageHeldByRead | vessel/apps/memcached/extstore.c:672-720 | While a read is in flight its page is neither freed nor reused. |
| ExtstoreEngine.Engine.TakePage | vessel/apps/memcached/extstore.c:319-341 | The page taken was first on the free list and now heads its bucket under a version no record has, and after the two pointer writes the next pointers still spell out every list; no page is taken exactly when page_free is 0. |
| ExtstoreEngine.Engine.RequestCheck | vessel/apps/memcached/extstore.c:450-485 | A request is granted if and only if the page takes writes and its buffer has room for len bytes, or it has none and a new one is to be had; a page that takes no more sends the writer for another one, a buffer that is too full goes to the file; the invariant and every record's contents stay. |
| ExtstoreEngine.Engine.Write | vessel/apps/memcached/extstore.c:490-508 | The record handed out is found at once with the bytes written, unless its page was closed; all other records are found as before. |
| ExtstoreEngine.Engine.WbufCallback | vessel/apps/memcached/extstore.c:372-398 | A flush returns buffer and io, moves every record of the page into the written part of the file, ends the page's activity exactly when it is written to the end, and changes no record's contents. |
| ExtstoreEngine.Engine.BeginRead | vessel/apps/memcached/extstore.c:672-690 | Returns exactly the bytes written under the record, or a miss exactly when the record is lost, or takes a reference that keeps the page. |
| ExtstoreEngine.Engine.ReleasePage | vessel/apps/memcached/extstore.c:729-769 | _free_page walks the next pointers to the page, cuts it out of its bucket and pushes it on the free list, and the pointers again spell out every list. |
| ExtstoreEngine.Engine.DeleteObjects | vessel/apps/memcached/extstore.c:544-577 | Succeeds exactly for an open page of the given version, takes count and bytes off and not below zero, and changes no record's contents. |
| ExtstoreEngine.Engine.ScanPage | vessel/apps/memcached/extstore.c:804-826 | A page is freed if and only if nobody reads it and it is closed or has no objects, and then no eviction follows; an open page with objects is remembered exactly if its version is below the one remembered; only records of that page are lost. |
| ExtstoreEngine.Engine.RequestPick | vessel/apps/memcached/extstore.c:435-449 | The request gets the head of its bucket, taking a free page for an empty bucket, and nothing exactly when there is neither. |
| ExtstoreEngine.Engine.ReadFromFile | vessel/apps/memcached/extstore.c:691-697 | The unlocked pread of a pinned read returns exactly the bytes written under the record. |
| ExtstoreEngine.Engine.FinishScan | vessel/apps/memcached/extstore.c:828-845 | The page remembered for eviction ends up closed, or free exactly if it was open and nobody reads it, and only records of that page are lost. |
| ExtstoreEviction.EvictsOldest | vessel/apps/memcached/extstore.c:796-845 | Over every whole scan in every run, whatever other threads do meanwhile: every page has its turn; a page is evicted exactly if none was free at the start, none could be freed, and an open page with objects was met; and of the pages met like that the evicted one has the lowest version. |
| ExtstoreEviction.ObjectsCounted | vessel/apps/memcached/extstore.c:490-577 | In every run the object count of a page changes by what is written to it less what is deleted from it. |
| ExtstoreEviction.StartsEmpty | vessel/apps/memcached/extstore.c:319-341 | A page that comes into use has no objects. |
| ExtstoreContents.CheckEffect | vessel/apps/memcached/extstore.c:450-485 | The conditions under which a request is granted, waits, or needs another page, and under which a buffer is submitted, on the page before the call. |
| ExtstoreContents.LookupIs | vessel/apps/memcached/extstore.c:490-690 | A record is found, in the buffer or in the file, with exactly its bytes as long as its page is in use, open and of the same version. |
| ExtstoreContents.ContentsStay | vessel/apps/memcached/extstore.c:319-726 | Allocations, requests, writes, flushes, reads and deletes change where bytes are found, never whether or which. |
| ExtstoreContents.LostForGood | vessel/apps/memcached/extstore.c:319-856 | Over every run a record lost to a close, a free or an eviction stays lost, however often its page is used again. |
| ExtstoreLinks.TakeLinked | vessel/apps/memcached/extstore.c:319-341 | Two pointer writes move a page from the free list to a bucket while both lists share the page's one next pointer. |
| ExtstoreLinks.ReleaseLinked | vessel/apps/memcached/extstore.c:729-769 | Cutting the k-th page out of its bucket and pushing it on the free list leaves every other list alone. |
| SlabsInvariant.ClassBalance | vessel/apps/memcached/slabs.c:226-416 | In a state satisfying the invariant, slabs * perslab is sl_curr plus chunks handed out plus chunks cleared by the mover, and requested is the sum of what was asked for. |
| SlabsTheorems.RunBalance | vessel/apps/memcached/slabs.c:226-416 | That holds for every class in every state of every run; the free list is duplicate-free inside the class's own pages, and pages belong to one class only. |
| SlabsMemory.RunMemoryBound | vessel/apps/memcached/slabs.c:246-276 | In every run with a limit, mem_malloced exceeds it by at most one page per slab class that has pages and one per malloc that failed for a class without pages; without such failures, by at most one page per class. |
| SlabsMemory.RunMemoryTotal | vessel/apps/memcached/slabs.c:548-576 | In every run mem_malloced is page_size times all pages and all failed mallocs together; it is the size of the pages if and only if no malloc failed so far. |
| SlabsMemory.FailedMallocsCount | vessel/apps/memcached/slabs.c:548-576 | For every configuration, class and n there is a run of n failed mallocs that leaves no page at all and mem_malloced at n pages. |
| SlabsMemory.RefusedIff | vessel/apps/memcached/slabs.c:254-259 | A class with pages, while the pool is empty, is refused another one if and only if all pages, all failed mallocs and the new page together exceed the limit. |
| SlabsMemory.ReleaseFits | vessel/apps/memcached/slabs.c:587-591 | The page that memory_release takes off mem_malloced is always part of it: no underflow. |
| SlabsTheorems.DonePageIsEmpty | vessel/apps/memcached/slabs.c:811-1048 | When the mover sets done, every chunk of the victim page is marked SLABBED and FETCHED and no free list, LRU, hash, chunk chain or head pointer refers into the page. |
| SlabsTheorems.CompleteView | vessel/apps/memcached/slabs.c:947-1009 | A rescued item or chunk is found at a new address outside the page with the same key, flags, expiry and bytes; an item that cannot be saved takes only its own key with it. |
| SlabsTheorems.MoverIsInvisible | vessel/apps/memcached/slabs.c:811-1098 | Over every run, no step of the mover changes any key's flags, expiry or value except by giving up an item, and then the look at its chunk found it expired or found no free chunk of its class outside the page. |
| SlabsTheorems.GivesUpIff | vessel/apps/memcached/slabs.c:743-945 | A rescue goes without new memory if and only if the item had expired or the class had no free chunk outside the page: perslab tries are enough. |
| SlabsTheorems.WorkerView | vessel/apps/memcached/slabs.c:226-416 | A link shows the uploaded flags, expiry and bytes under its key, an unlink removes the key, and page growth, allocation, uploading, fetching, releasing and freeing are invisible. |
| SlabsTheorems.RunContents | vessel/apps/memcached/slabs.c:226-1098 | In every run each step changes the contents as it means to: a link shows the uploaded item, an unlink removes its key, an item the mover gives up takes its key with it, and nothing else is visible. |
| SlabsTheorems.MoverNeverStuck | vessel/apps/memcached/slabs.c:811-1048 | In every reachable state of a move exactly one kind of step is possible: finishing when done, completing when a rescue is in progress, examining a chunk otherwise. That these steps lead to the end is in the next rows. |
| SlabsQuiet.UndisturbedMoveEnds | vessel/apps/memcached/slabs.c:811-1048 | If at the start of a pass every chunk of the page is free or belongs to a linked item that nobody holds, and then only the mover acts and finds no lock taken, the page is done after at most two passes and four steps per chunk, whether items can be saved or not. |
| SlabsProgress.PassEnds | vessel/apps/memcached/slabs.c:1017-1043 | In every run a pass is over after exactly perslab visits, and then done is set if and only if no chunk of the pass was left busy; otherwise the next pass begins at the first chunk. |
| SlabsProgress.CleanPassIsLast | vessel/apps/memcached/slabs.c:1031-1043 | A pass in which no item is met locked, unlinked or held and none is given up sets done. |
| SlabsProgress.RunPass | vessel/apps/memcached/slabs.c:1017-1043 | During a pass, in every run, the cursor has moved by one per visit and the busy count is the number of chunks left behind. |
| SlabsProgress.RescueClears | vessel/apps/memcached/slabs.c:849-1009 | An idle, live, linked item with a free chunk of its class outside the page: whatever workers do between the two steps of the rescue, its chunk is cleared at the end and not counted busy. |
| SlabsProgress.StepVisits | vessel/apps/memcached/slabs.c:811-1048 | Every step during a move either ends a visit, moving the cursor on or ending the pass, or leaves cursor and busy count alone. |
| SlabsProgress.FetchedStays | vessel/apps/memcached/slabs.c:859-896 | An item that is fetched is passed over by the mover, with all its chunks, until the reference is given back. |
| SlabsTransfers.StartBegins | vessel/apps/memcached/slabs.c:687-740 | A move begins if and only if both classes exist and differ and the source has two pages; it takes the oldest page from the first chunk on. |
| SlabsTransfers.FinishHandsOver | vessel/apps/memcached/slabs.c:1079-1098 | The source loses exactly the emptied page; another class gains it with all chunks free and in front of its list; the pool gets it last and then gives back as many pages as the limit demands and no more. |
| SlabsTransfers.ReleaseReleases | vessel/apps/memcached/slabs.c:579-592 | Release takes pages off the end of the pool until the total is within the limit or the pool is empty, and not one more. |
| SlabsTransfers.NewSlabGrows | vessel/apps/memcached/slabs.c:246-276 | A class gets a page if and only if the pool has one, or malloc succeeds and the limit allows it or the class has none; the page is the last of the pool if there is one, and all its chunks are in front of the free list. |
| SlabsAsserts.RunNeverAsserts | vessel/apps/memcached/slabs.c:279-1098 | In every run the asserts on the way of any possible step hold: sizes fit their class, list heads and cut chunks are free, the head of a chunk is a chunked item, the copy is not chunked, a chunked item has a first chunk, only chunks are in a chain, a finished page is cleared. |
| SlabsAsserts.RunSizes | vessel/apps/memcached/slabs.c:295-295 | In every run no chunk was asked for more than its class's size, the mover's own allocations included. |
| SlabsTheorems.ExamineView | vessel/apps/memcached/slabs.c:811-945 | Examining a chunk, inline reclaim included, changes nothing a client can see. |
| SlabsTheorems.DropView | vessel/apps/memcached/slabs.c:993-1002 | Dropping an item with all its chunks removes exactly its key. |
| SlabsPages.NewSlabKeeps | vessel/apps/memcached/slabs.c:246-276 | Growing a class, by a page from the pool or from malloc, or failing to, keeps lists, counts, the memory total that counts failed mallocs, and the memory bound. |
| SlabsPages.FinishKeeps | vessel/apps/memcached/slabs.c:1079-1098 | Handing the emptied page to another class or to the pool keeps lists, counts, the memory total and the memory bound. |
| SlabsPages.ReleaseKeeps | vessel/apps/memcached/slabs.c:579-592 | Returning pool pages to the system keeps lists, counts and the memory total. |
| SlabsProofs.FreeItemKeeps | vessel/apps/memcached/slabs.c:327-416 | Freeing an item gives its header and every chunk of it back to the free list of its own class. |
| SlabsProofs.AllocOutsideKeeps | vessel/apps/memcached/slabs.c:743-773 | slab_rebalance_alloc returns memory outside the victim page only, and clears what it met inside. |
| SlabsProofs.AdvanceKeeps | vessel/apps/memcached/slabs.c:1017-1043 | The cursor never passes an uncleared chunk without counting it busy, so a pass without busy chunks has cleared the page; that such a pass sets done is PassEnds. |
| SlabsMoves.StepKeeps | vessel/apps/memcached/slabs.c:226-1098 | Every step of workers and mover, failed mallocs included, keeps the whole invariant. |
| SlabsMoves.RunInv | vessel/apps/memcached/slabs.c:226-1098 | The invariant holds throughout every interleaving of page growth, failed mallocs, allocs, uploads, links, fetches, frees and page moves. |
| SlabsMoves.RescueItem | vessel/apps/memcached/slabs.c:949-976 | Moving an item header relinks it, repoints its chunks and keeps the books balanced. |
| SlabsMoves.RescuePart | vessel/apps/memcached/slabs.c:977-992 | Moving a chained chunk repoints its neighbours and keeps the books balanced. |
| SlabsAllocator.Allocator.ClassFor | vessel/apps/memcached/slabs.c:92-102 | The class returned is the smallest that fits, the largest for bigger sizes, and 0 exactly for what cannot be stored. |
| SlabsAllocator.Allocator.SplitPage | vessel/apps/memcached/slabs.c:226-233 | The splitting loop puts every chunk of the page on the free list, last chunk first. |
| SlabsAllocator.Allocator.MemoryAllocate | vessel/apps/memcached/slabs.c:548-576 | mem_malloced grows by a page whether or not malloc succeeds. |
| SlabsAllocator.Allocator.PoolPage | vessel/apps/memcached/slabs.c:236-244 | The page taken is the last of the pool, and only an empty pool has none. |
| SlabsAllocator.Allocator.NewSlab | vessel/apps/memcached/slabs.c:246-276 | The in-place page growth: the class gets a page exactly when the pool, or malloc and the limit, allow it, with all chunks in front of the free list; otherwise pages, free lists and chunks are as before, and a failed malloc is counted in mem_malloced all the same. |
| SlabsAllocator.Allocator.Alloc | vessel/apps/memcached/slabs.c:279-325 | do_slabs_alloc pops the free list, refilling it by a page when allowed; a refill that fails in malloc still counts in mem_malloced. |
| SlabsAllocator.Allocator.FreeItem | vessel/apps/memcached/slabs.c:327-416 | The freeing loop over header and chunks does the freeing step. |
| SlabsAllocator.Allocator.RebalanceAlloc | vessel/apps/memcached/slabs.c:743-773 | The allocation loop of the mover does the allocation step. |
| SlabsAllocator.Allocator.MemoryRelease | vessel/apps/memcached/slabs.c:579-592 | The release loop does the release step. |
| SlabsAllocator.Allocator.RebalanceMove | vessel/apps/memcached/slabs.c:811-1048 | Examining one chunk keeps the invariant, shows clients nothing, leaves a rescue without memory exactly when the item had expired or no chunk was free outside the page, and if no rescue begins moves the cursor on, or ends the pass with done exactly when nothing in it was busy. |
| SlabsAllocator.Allocator.RebalanceFinish | vessel/apps/memcached/slabs.c:1050-1098 | The finish, shifting the page list down, hands the emptied page to the other class with all chunks free, or to the pool. |
| SlabsFreeLists.FreeLists.CutFree | vessel/apps/memcached/slabs.c:777-786 | Cutting a chunk out of the middle leaves its list without it and all lists well-formed. |
| SlabsFreeLists.FreeLists.Push | vessel/apps/memcached/slabs.c:392-404 | Freeing links a chunk at the head of its class's list; all lists in the shared memory stay well-formed, disjoint, and sl_curr long. |
| SlabsFreeLists.FreeLists.Pop | vessel/apps/memcached/slabs.c:300-312 | Allocating takes the head off its class's list, or answers 0 for an empty one, and keeps all lists well-formed. |
| SlabsPointers.StepWired | vessel/apps/memcached/slabs.c:226-1098 | The pointer writes of every step of workers and mover do to the lists in memory what the step does to the free lists. |
| SlabsPointers.RunWired | vessel/apps/memcached/slabs.c:226-1098 | In every reachable state each class's free list is a well-formed doubly linked list of sl_curr free chunks of that class, from slots on, whatever owners write into the pointers of chunks in use. |
| ItemsInvariant.RemoveKeeps | vessel/apps/memcached/items.c:516-524 | Dropping a reference frees the item exactly when it was the last one, and then it is neither linked, held nor queued. |
| ItemsInvariant.LinkKeeps | vessel/apps/memcached/items.c:463-483 | Linking keeps flag, table, queue, references and all counters consistent. |
| ItemsInvariant.DetachKeeps | vessel/apps/memcached/items.c:485-498 | Unlinking keeps them consistent, the table's reference passing to the caller. |
| ItemsInvariant.BumpKeeps | vessel/apps/memcached/items.c:1272-1299 | A queued bump adds one reference and one entry for the item; a full buffer changes only the ACTIVE flag. |
| ItemsInvariant.SumSetRemove | vessel/apps/memcached/items.c:463-498 | curr_bytes can be taken apart item by item in any order. |
| ItemsProofs.RequeueKeeps | vessel/apps/memcached/items.c:542-568 | Moving an item within or between queues keeps everything consistent. |
| ItemsProofs.UnlinkKeeps | vessel/apps/memcached/items.c:485-514 | do_item_unlink leaves holders their references, frees the key, and touches no other item. |
| ItemsProofs.GetKeeps | vessel/apps/memcached/items.c:946-1049 | do_item_get keeps everything consistent on hits, misses, lazy expiry and flush. |
| ItemsEffects.GetFinds | vessel/apps/memcached/items.c:946-1049 | A fetch finds the item if and only if the key is in the cache and its item is not flushed and has no expiry or one in the future. A hit gives the caller a reference and leaves exactly the marks of a hit; otherwise the key is gone and no reference is left; an absent key changes nothing; every other key keeps its item. |
| ItemsEffects.HitEffect | vessel/apps/memcached/items.c:1012-1037 | The first hit makes an item FETCHED, the next one ACTIVE, further ones change nothing; becoming active in a cold queue adds a bump and a reference, or nothing if the buffer is full, elsewhere it brings the time up to date; without segments every hit updates. |
| ItemsEffects.UpdateEffect | vessel/apps/memcached/items.c:542-569 | With segments an active cold item goes to the head of the warm queue, inactive and with the time of the update; without, an item not touched for a minute goes to the head of its own queue; in all other cases no queue changes. |
| ItemsEffects.DrainPromotes | vessel/apps/memcached/items.c:1301-1335 | A whole pass over the noted hits: in every class the items hit while cold stand at the head of the warm queue, the last one first, inactive, and are gone from the cold queue; nothing else has moved. |
| ItemsEffects.PullMoves | vessel/apps/memcached/items.c:1139-1234 | A live item that need not be evicted: an active one goes from hot or cold to the head of warm, or is refreshed in warm; an inactive one goes from hot or warm to the head of cold if and only if its queue holds more than its share of the bytes or it is too old; otherwise nothing changes. |
| ItemsEffects.LinkEffect | vessel/apps/memcached/items.c:463-483 | A linked item is in the table under its key and at the head of its queue, with the time of the link and one reference more. |
| ItemsEffects.UnlinkEffect | vessel/apps/memcached/items.c:485-514 | An unlinked item has left table and queue, and is freed exactly if the table had the last reference. |
| ItemsEffects.ReplaceEffect | vessel/apps/memcached/items.c:571-578 | The new item has the key and the head of its queue, the old one is out of the cache, other keys keep theirs. |
| ItemsEffects.TouchDecides | vessel/apps/memcached/items.c:1051-1058 | After a touch the new expiry alone decides whether the item is found. |
| ItemsProofs.PullKeeps | vessel/apps/memcached/items.c:1064-1237 | Each branch of lru_pull_tail keeps everything consistent. |
| ItemsProofs.PullEffect | vessel/apps/memcached/items.c:1119-1215 | lru_pull_tail takes an item out exactly when it is expired, flushed, or evicted from the cold queue; otherwise an active item can only move to warm and an inactive one only to cold, to the head of the new queue. |
| ItemsProofs.PullTouches | vessel/apps/memcached/items.c:1083-1235 | A round of the walk touches no item but the one it looks at. |
| ItemsProofs.PullUnchanged | vessel/apps/memcached/items.c:1064-1237 | A round that reports nothing removed has changed nothing at all. |
| ItemsProofs.PullGoesOn | vessel/apps/memcached/items.c:1083-1086 | When the walk goes on, the item it saved as next is still in the queue. |
| ItemsProofs.DrainKeeps | vessel/apps/memcached/items.c:1320-1327 | Working off a bump drops exactly the reference it carried, frees the item exactly if that was the last, and leaves the holders alone. |
| ItemsProofs.ReplaceKeeps | vessel/apps/memcached/items.c:571-578 | Replacing an item by one with the same key keeps everything consistent. |
| ItemsProofs.RunInv | vessel/apps/memcached/items.c:385-578 | The invariant holds in every run of items.c operations. |
| ItemsProofs.RunConsistent | vessel/apps/memcached/items.c:385-578 | In every run: LINKED iff in the hash table iff in the queue of slabs_clsid; the refcount is the link plus holders plus queued bumps; an item exists exactly while something refers to it; sizes, sizes_bytes, curr_items and curr_bytes are the true counts and sums. |
| ItemsProofs.RunNeverDangling | vessel/apps/memcached/items.c:946-1049 | What operations find in the table, the queues and the bump buffer always exists and is referenced. |
| ItemsCache.Cache.ItemRemove | vessel/apps/memcached/items.c:516-524 | The in-place release frees at zero and only then. |
| ItemsCache.Cache.ItemLink | vessel/apps/memcached/items.c:463-483 | The in-place link puts the item into the table and at the head of its queue. |
| ItemsCache.Cache.ItemUnlink | vessel/apps/memcached/items.c:485-498 | The in-place unlink takes a linked item out of table and queue and touches no other. |
| ItemsCache.Cache.ItemUpdate | vessel/apps/memcached/items.c:542-569 | The in-place update moves an active cold item to the head of the warm queue, without segments an untouched item to the head of its own, and no item otherwise. |
| ItemsCache.Cache.ItemGet | vessel/apps/memcached/items.c:946-1049 | The in-place fetch finds the item if and only if the key is there and its item is neither flushed nor expired, exptime 0 meaning never; an absent key changes nothing, other keys keep their items. |
| ItemsCache.Cache.PullItem | vessel/apps/memcached/items.c:1083-1235 | One round of the pull loop does the pull step, and moves a live item to warm or cold exactly under the conditions of PullMoves. |
| ItemsCache.Cache.PullTail | vessel/apps/memcached/items.c:1064-1237 | The whole walk of up to five items ends at the item nearest the tail that is not locked, dead, or active in a warm queue. It evicts that item when it is to evict, and otherwise moves it to the head of warm or cold or leaves it, by its activity, its age and the share of its queue. The dead items passed on the way are gone unless locked; no other key is lost. |
| ItemsCache.Cache.MaintainerBumps | vessel/apps/memcached/items.c:1301-1335 | Draining works off the entries that peek_all showed, drops their references, leaves entries queued behind them, and with segments leaves the items hit while cold at the head of the warm queues, out of the cold ones. |
| Links.Pushed | vessel/apps/memcached/items.c:385-399 | The pointer updates of a head insert turn a well-formed list into the list with the item in front. |
| Links.Cut | vessel/apps/memcached/items.c:425-441 | The pointer updates of an unlink turn it into the list without the item, wherever it was. |
| Links.Swung | vessel/apps/memcached/items.c:1783-1812 | The pointer updates of a crawl step exchange the crawler with the item in front of it and nothing else. |
| LruQueue.Queue.LinkQ | vessel/apps/memcached/items.c:385-410 | do_item_link_q puts the item at the head of a well-formed queue. |
| LruQueue.Queue.LinkTailQ | vessel/apps/memcached/items.c:1721-1740 | do_item_linktail_q puts the crawler at the tail. |
| LruQueue.Queue.UnlinkQ | vessel/apps/memcached/items.c:1742-1761 | Unlinking removes the item, and is harmless for a crawler that was already popped off the head. |
| LruQueue.Queue.CrawlQ | vessel/apps/memcached/items.c:1765-1817 | do_item_crawl_q returns the item in front and swaps with it, or pops the crawler at the head; its asserts hold. |
| LruQueue.Queue.CrawlLast | vessel/apps/memcached/crawler.c:367-376 | The last crawl step and the unlink after it leave the queue without the crawler. |
| Crawler.SwapKeepsOrder | vessel/apps/memcached/items.c:1783-1812 | A crawl step keeps the order of the queue without the crawler. |
| Crawler.RunKeeps | vessel/apps/memcached/crawler.c:390-418 | Through any interleaving of crawl steps, head inserts and unlinks, items seen and items ahead are the original queue backwards, as far as items stayed. |
| Crawler.CrawlComplete | vessel/apps/memcached/crawler.c:390-418 | A crawl that reaches the head has returned every item that stayed exactly once, from tail to head, and left their order alone. |
| Crawler.QuietCrawl | vessel/apps/memcached/crawler.c:390-418 | Without interference the crawl takes as many steps as there are items, returns them backwards and leaves the queue as it was. |
| Crawler.CrawlQueue | vessel/apps/memcached/crawler.c:540-566 | The loop over one queue, from linking the crawler to unlinking it, returns the queue backwards and restores it. |
| Cas.StepKeeps | vessel/apps/memcached/memcached.c:2816-2941 | Every storage command, delta, delete, expiry, fetch and release keeps table, items, holders and ids consistent. |
| Cas.StepRefines | vessel/apps/memcached/memcached.c:2816-2941 | Items at addresses, references and frees refine a plain map: each step changes value and id of keys exactly as its command means, and nothing else. For the storage commands that meaning is the protocol's reply table on the map itself. |
| Cas.StoreReplies | vessel/apps/memcached/memcached.c:2816-2941 | On what clients see: set is always stored, add exactly if the key is absent, replace if present, append and prepend if present with id 0 or the current one and room, cas if present with the current id; EXISTS is for a wrong id, NOT_FOUND for a cas without key; append stores old + new, prepend new + old, the others the new value. |
| Cas.DeltaReadsBack | vessel/apps/memcached/memcached.c:4233-4270 | After an effective incr the value shows old + delta, less 2^64 if that overflows, after a decr old - delta or 0; the next command reads exactly that number if and only if it is below 2^63 or no minus sign follows in memory. |
| Cas.DeltaTakesEffect | vessel/apps/memcached/memcached.c:4211-4305 | An incr or decr takes effect if and only if the value is not empty, not chunked and a number, and the new text fits an item nobody holds or there is memory for a new one; exactly in the former case it is written in place; an empty or chunked value costs a reference. |
| Cas.CountersAdd | vessel/apps/memcached/memcached.c:4200-4309 | Over every run in which a counter neither wraps nor stops at zero it shows its old number plus all that was added less all that was taken away. |
| Cas.IncrThenDecr | vessel/apps/memcached/memcached.c:4240-4250 | An incr by d and later a decr by d, without overflow and with no update in between, bring the old number back. |
| Cas.CounterRefused | vessel/apps/memcached/memcached.c:4233-4240 | An incr or decr of a counter is refused as non-numeric if and only if it has reached 2^63 and a minus sign follows in memory. |
| Cas.CountersCount | vessel/apps/memcached/memcached.c:4200-4309 | Over every run and any interleaving, a key on which only incr and decr take effect shows the number it started with after exactly those commands, in order, wrapping and stopping at zero included. |
| Strtoull.ShownNumber | vessel/apps/memcached/util.c:48-71 | safe_strtoull reads a decimal number padded with spaces as itself, except from 2^63 on when a minus sign follows before the next zero byte. |
| Strtoull.NumberOf | vessel/apps/memcached/util.c:48-71 | Spaces, an optional sign and digits are read as the digits, negated modulo 2^64 behind a minus; refused exactly if the digits overflow, anything but a space or the end follows them, or the result is 2^63 or more and a minus sign is anywhere before the next zero byte. |
| Strtoull.NumberSplits | vessel/apps/memcached/util.c:48-71 | Nothing that is not of that form is a number. |
| Strtoull.BigNumberRefused | vessel/apps/memcached/util.c:57-64 | 2^63 followed in memory by a minus sign is refused. |
| Strtoull.MinusNumber | vessel/apps/memcached/util.c:48-71 | A negative number is read modulo 2^64, and refused exactly when the result is 2^63 or more. |
| Cas.AssignedIsNext | vessel/apps/memcached/items.c:109-115 | A link or in-place change takes the next id; nothing else takes one. |
| Cas.IdsIncrease | vessel/apps/memcached/items.c:463-483 | Over every run ids are handed out strictly increasing, so none twice. |
| Cas.Persists | vessel/apps/memcached/memcached.c:2816-2941 | A step that leaves an old id linked under a key has left the item under that key alone. |
| Cas.OldIdMeansUntouched | vessel/apps/memcached/memcached.c:2840-2857 | If the id linked under a key was already drawn earlier in the run, the same item was linked then and nothing happened to the key since. |
| Cas.CasStoredMeansUntouched | vessel/apps/memcached/memcached.c:2840-2857 | A cas answered STORED with an id printed at an earlier step proves that no set, add, replace, append, prepend, cas, incr, decr, delete, expiry or eviction of the key took effect in between. |
| Cas.HeldItem | vessel/apps/memcached/memcached.c:4261-4294 | A held item keeps its bytes; its id changes only when an incr or decr replaces it. |
| Cas.GetsThenCas | vessel/apps/memcached/memcached.c:3842-3872 | With fetch and print of a gets as separate steps: the item a STORED cas replaces is the one fetched, untouched since the fetch, if and only if no incr or decr replaced it between fetch and print. |
| Cas.LostIncrement | vessel/apps/memcached/memcached.c:4273-4294 | A run in which the condition fails: a gets prints the old value with the id of the incremented one, and the cas then overwrites the increment. |
| CasServer.Server.StoreItem | vessel/apps/memcached/memcached.c:2816-2941 | The reply is the one that the protocol's table gives for the map of keys as clients see it; STORED leaves old + new for append, new + old for prepend and the new value otherwise, under an id above all others, for this key alone; any other reply changes nothing clients see. |
| CasServer.Server.AddDelta | vessel/apps/memcached/memcached.c:4200-4309 | Answers a number if and only if the value is a number of an item that can be changed; the answer is old + delta modulo 2^64, or old - delta or 0, and the new value shows it; without an answer nothing clients see changes. |
| Chunks.ChunkedItem.AllocChunk | vessel/apps/memcached/items.c:230-254 | A new chunk, sized for what remains, leaves the contents as they were. |
| Chunks.ChunkedItem.CopyFlat | vessel/apps/memcached/memcached.c:2759-2781 | Copying from a flat item appends exactly the first len bytes, keeps used <= size, and ends; it needs at most len + 1 chunks. |
| Chunks.ChunkedItem.CopyChunked | vessel/apps/memcached/memcached.c:2725-2758 | Copying from a chunked item of any chunk sizes, zero-size header chunks included, appends exactly the first len bytes and ends. |
| Chunks.ChunkedItem.CopyChunks | vessel/apps/memcached/memcached.c:2714-2782 | Either kind of source appends its first len bytes to the destination. |
| Chunks.CopyData | vessel/apps/memcached/memcached.c:2784-2808 | Append gives old ++ new and prepend new ++ old, with one CRLF at the end; a failure means memory ran out. |
| BipbufferSpec.AcceptedFits | vessel/apps/memcached/bipbuffer.c:42-47 | When bipbuf_unused admits n bytes they fit ahead of the write position without touching region A. |
| BipbufferSpec.FillPushAppends | vessel/apps/memcached/bipbuffer.c:91-128 | Writing into reserved room and pushing n bytes appends exactly those bytes and leaves region A alone. |
| BipbufferSpec.PollRemoves | vessel/apps/memcached/bipbuffer.c:151-180 | Polling at most what was peeked removes that prefix of the contents. |
| BipbufferSpec.PollSoundIff | vessel/apps/memcached/bipbuffer.c:151-180 | A poll that is not refused is a dequeue if and only if it asks for no more than region A holds. |
| BipbufferSpec.OverlongPollBreaks | vessel/apps/memcached/bipbuffer.h:64-69 | A longer poll is accepted and breaks the buffer, although the header promises a refusal. |
| BipbufferSpec.RequestThenOffer | vessel/apps/memcached/logger.c:285-312 | After a request for n + slack and a push of at most slack the n bytes are still free, and an offer of them is accepted if and only if region B was in use, or no switch happens, or region A starts below 2^31. |
| BipbufferSpec.OfferRefusedAfterRequest | vessel/apps/memcached/bipbuffer.c:42-47 | A buffer of 2^31 + 2 bytes in which the request is accepted and the offer refused. |
| BipbufferSpec.RunRequestThenOffer | vessel/apps/memcached/logger.c:285-312 | In every run of a buffer that starts as bipbuf_new leaves it, whatever its size, the offer after a request and a shorter push is accepted, because every call ends with the test for a switch. |
| BipbufferSpec.RunIsFifo | vessel/apps/memcached/bipbuffer.c:23-180 | Over every run of requests, pushes, offers, peeks and polls the buffer is a FIFO byte queue in which every pushed record stays contiguous. |
| BipbufferSpec.PeekedBytesStay | vessel/apps/memcached/items.c:1301-1332 | Whatever the producer does between peek_all and poll, the peeked bytes stay where they are. |
| Bipbuffer.BipBuf.Request | vessel/apps/memcached/bipbuffer.c:77-89 | Granted at the write position if and only if n bytes fit between it and the end of the gap and the gap is below 2^31. |
| Bipbuffer.BipBuf.Push | vessel/apps/memcached/bipbuffer.c:91-107 | The in-place push appends the bytes at the write position, and writing goes on in region B exactly if it did or the gap before region A is now the larger one. |
| Bipbuffer.BipBuf.Offer | vessel/apps/memcached/bipbuffer.c:109-128 | The in-place offer appends the given bytes or nothing. |
| Bipbuffer.BipBuf.PeekAll | vessel/apps/memcached/bipbuffer.c:142-149 | Peeking shows the longest contiguous prefix of the contents. |
| Bipbuffer.BipBuf.Poll | vessel/apps/memcached/bipbuffer.c:151-180 | Refused exactly when the queue is empty or the end passes the array; otherwise, up to the size of region A, the bytes at the returned place are the front of the queue and are removed. |
| UdpSpec.ReassemblyIsExact | vessel/apps/memcached/memcached.c:1065-1105 | Reassembling the datagrams by the sequence numbers and totals in their headers, in any order and with repeats, gives the payload. |
| UdpSpec.WireLength | vessel/apps/memcached/memcached.h:47-48 | A datagram is at most 1400 bytes on the wire. |
| UdpSpec.WireReads | vessel/apps/memcached/memcached.c:1089-1100 | A receiver reads request id, sequence number and count from the header, two zero bytes, and then the payload. |
| Udp.Conn.EnsureIovSpace | vessel/apps/memcached/memcached.c:947-971 | Regrowing the iov list repoints every message to the prefix sum of the lengths before it. |
| Udp.Conn.AddMsgHdr | vessel/apps/memcached/memcached.c:288-330 | A new message is one empty datagram with its header slot. |
| Udp.Conn.AddIov | vessel/apps/memcached/memcached.c:984-1026 | The splitting loop ends, appends exactly the buffer to the payload, keeps every datagram within 1400 bytes, and begins a new one only when the last has 1400 bytes or IOV_MAX pieces. |
| Udp.Conn.BuildHeaders | vessel/apps/memcached/memcached.c:1065-1105 | The header loop writes each datagram's header and nothing else. |
| Udp.Conn.Respond | vessel/apps/memcached/memcached.c:984-1105 | For every list of buffers the datagrams sent reassemble to exactly their concatenation; each carries the request id, its number and the count; all but the last are full. |
| Decimals.DecimalParses | vessel/apps/memcached/itoa_ljust.c:64-149 | The decimal string parses back to the number and has no leading zero. |
| Itoa.Tail | vessel/apps/memcached/itoa_ljust.c:92-107 | The fall-through part writes the remaining digits and the NUL. |
| Itoa.Digits | vessel/apps/memcached/itoa_ljust.c:83-90 | When the number has an odd number of digits the first one is written alone, and what remains is exactly what the fall-through part will write. |
| Itoa.U32ToString | vessel/apps/memcached/itoa_ljust.c:109-117 | itoa_u32 writes the canonical decimal string and a NUL at the returned pointer. |
| Itoa.I32ToString | vessel/apps/memcached/itoa_ljust.c:119-126 | itoa_32 writes the sign and the canonical string for every int32. |
| Itoa.U64ToString | vessel/apps/memcached/itoa_ljust.c:128-140 | itoa_u64 writes the canonical string for every uint64. |
| Itoa.I64ToString | vessel/apps/memcached/itoa_ljust.c:142-149 | itoa_64 writes the sign and the canonical string for every int64. |
| Itoa.SuffixFits | vessel/apps/memcached/memcached.h:51-51 | The response suffix for any flags, length and CAS fits in SUFFIX_SIZE. |
| Itoa.MakeSuffix | vessel/apps/memcached/memcached.c:3512-3536 | make_ascii_get_suffix writes exactly that suffix, terminated. |
| Itoa.SuffixReads | vessel/apps/memcached/memcached.c:3512-3536 | A client that splits the suffix at its spaces reads the flags, the length of the value without CRLF, and the id if it asked for it, and the line ends with CRLF. |

## Left out

- The network side of `memcached.c`, option parsing, statistics, SASL and the binary protocol: input, output and configuration.
- The hash functions: an arbitrary function of the key takes their place.
- `storage.c` compaction and the slab automove policies: heuristics that decide when to act, not what acting does.
- 64-bit wrap of the CAS counter and of the page version counter, and 16-bit wrap of an item's reference count (memcached.h:465): the counters are unbounded here, in `Items`, `Cas` and `Slabs` alike.
- The TCP branch of `add_iov`, growth of the UDP header buffer, and failing allocations while a response is built.
- Responses of more than 65535 datagrams: `Udp.Conn.Respond` answers that the response does not fit the header's counters.
- More than one writer per bucket of the page store at a time: the source serialises them by its bucket lock, here a bucket has one request in progress.
- pread and pwrite that transfer less than was asked.
- A page move out of the global page pool, and growth of a slab list failing: the source class is at least 1 and page lists grow.
- The busy-delete branch of the page mover at slabs.c:875-883.
- Preallocated memory (mem_base) and changes of the memory limit at run time.
- prev and next pointers between the chunks of an item: a chain is the sequence of its chunk addresses, kept with the item.
- h_next pointers of the hash table: a chain is a sequence; the pointer-to-pointer that `_hashitem_before` returns is an index.
- LRU order inside the slab model: there the LRU is the set of linked items; order is in `LruQueue` and `Items`.
- The new CAS id a rescued item is linked with: the slab model has no CAS ids.
- Tail repair in `lru_pull_tail`, which overwrites the reference count on purpose, and crawlers met by that walk.
- The reference kept by the early NON_NUMERIC return of `do_add_delta`: the CAS model keeps it as the source does, the item model does not include the command.
- The id argument of `do_add_delta`, which only the binary protocol passes.
- The failed-copy branch of append and prepend at memcached.c:2903-2908, and `_store_item_copy_data` into an unchunked item.
- The `remaining` limit of a crawl and clients that go away: crawls are unlimited.
- The expansion thread's pausing of workers: starting an expansion is one step while no worker is inside the table.
- Overflow of the signed product in `itoa`, which happens from 2200000000 on: the product is taken modulo 2^32, as the unsigned result the source goes on with.
- ItemsCache.Cache.PullTail: in a warm queue with fewer than five items, all of them passed over, the walk comes to items it has itself refreshed; what becomes of those is not said.
- SlabsAllocator.Allocator.constructor: starts with classes already sized; the size table of `slabs_init` is a parameter.
