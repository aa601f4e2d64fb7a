# A verified model of the coroutine HTTP server's stateful cores

The project models six cores of the repository and proves what they promise. Each core that changes state in place is
a class with the original's fields, whose methods are proved against functions on plain values; the promises over whole
runs are proved about those functions.

- **Coroutine stack pool** (`MemBlocks`, `CoMemPool`, `MemRuns`, `CoContext`): a next-fit allocator with 32-byte headers
  in one byte array, and the saving and resuming of coroutine frames on top of it, including the release of a block
  before it is read.
- **Hash dictionary** (`DictHash`, `DictTable`, `DictLog`, `Dict`): primary slots, overflow slots chained by index, a key
  log, a data log and a rehash driven by the key log, refining a finite map.
- **Rings and connection pool** (`Rings`, `EventLoop`, `ConnRuns`, `ConnLinks`, `ConnPool`): the bounded queue, the
  recycle queue with three parts in one array, the callback half of the event loop, and the pool that hands connections
  to waiting coroutines through the callback queue.
- **Both pools together** (`ConnStack`): a coroutine that waits for a connection is saved in the stack pool and resumed by
  the callback that hands it the connection.
- **Expiring slots** (`TimeSlots`, `TimeArray`): slots with a life time, renewed by reads in their second half through a
  forwarding index.
- **Request head parser** (`HttpHead`, `HttpPrint`, `HttpQuickCheck`, `HttpRoundTrip`): the resumable parser of RFC 9112
  sections 3 and 5, proved to follow an automaton that takes one byte at a time, and to undo printing.
- **Codecs** (`NumText`, `Percent`, `MemMove`, `HttpChunk`, `HttpChunkIO`, `HttpChunkReader`): numbers, percent encoding
  (RFC 3986 section 2.1), and the chunked transfer coding (RFC 9112 section 7.1) with its writer and its in-place reader.

`Bytes` and `Options` hold what they share. `dafny verify dfyconfig.toml` checks everything.

Where the code does something its promise would not lead one to expect, the model follows the code and a lemma or a
contract says exactly when the promise holds:

- the allocator's search ends only with two blocks or a single one that fits (`MemBlocks.SearchTerminates`);
- a saved context whose length is a multiple of 65536 is never resumed (`CoContext.Coroutines.Resume`);
- a record taken back while the free list begins at slot 0 is lost (`Rings.RecycleQueue.CancelData`);
- a resumed waiter loses its connection when its slot has become 0 meanwhile (`ConnRuns.WaiterServedIff`,
  `ConnRuns.LostAtWrap`), and takes back somebody else's registration;
- a renewal does not take the data length along (`TimeSlots.LengthSurvives`, `TimeSlots.LengthLost`);
- three constructors build on a block that is too small, or on none, when a size does not fit: the connection pool
  (`ConnPool.Pool.constructor`), the expiring slots (`TimeSlots.FreshGood`), the dictionary (`Dict.CreatableIff`);
- slashes at the end of a path are dropped and long paths do not fit the 16-bit fields (`HttpPrint.PathExact`);
- a four-letter method that begins with "po" is taken for POST (`HttpRoundTrip.VerbExact`);
- the encoder leaves percent signs alone (`Percent.RoundTripIff`);
- the chunk reader answers 0 for a body cut inside a size line or before its closing CRLF, for one with bytes behind it,
  and for one whose line ends are not CRLF (`HttpChunk.CompleteIff`, `HttpChunk.CutInSize`, `HttpChunk.CutBeforeEnd`);
- the lengths it reports are wrong when a read has ended inside a chunk (`HttpChunkReader.ReceiveReads`).

## Model

| member | source | states |
|---|---|---|
| MemBlocks.Ordered | src/coroutine/co_memblock.c:43-59 | in a gapless arena blocks lie strictly one behind the other, so the byte ranges of any two are disjoint |
| MemBlocks.NextBlock | src/coroutine/co_memblock.c:79-109 | stepping over a block's length leads exactly to the next block, or from the last one to the sentinel at max |
| MemBlocks.Choice | src/coroutine/co_memblock.c:66-109 | the next-fit choice is a free block that fits, and there is none exactly when no free block of the whole arena can hold the request |
| MemBlocks.SearchTerminates | src/coroutine/co_memblock.c:79-109 | the search loop ends if and only if the arena has at least two blocks or its single block is free and fits; otherwise it looks at the same block for ever |
| MemBlocks.SearchEnds | src/coroutine/co_memblock.c:79-109 | with at least two blocks, or one that fits, the search stops, by a measure of unvisited blocks before and after the wrap |
| MemBlocks.SearchSpins | src/coroutine/co_memblock.c:79-109 | a single block that is live or too small is looked at again after any number of steps |
| MemBlocks.SearchSeen | src/coroutine/co_memblock.c:79-109 | whatever point the search has reached, every block between its start and there was too small or in use, and its answer is the next-fit choice |
| MemBlocks.PlaceTiled | src/coroutine/co_memblock.c:110-131 | taking a block, with its rest split off when longer than a header, keeps the tiling and leaves no two free neighbours |
| MemBlocks.MallocShaped | src/coroutine/co_memblock.c:61-133 | an allocation keeps the whole heap shape: tiling, block sizes, no free neighbours, and a roving top on a block boundary |
| MemBlocks.NextFit | src/coroutine/co_memblock.c:61-133 | of all free blocks with room the one granted comes first from the roving pointer on, around the arena; it gets the size asked for, or all of the block when 32 bytes or less would be left, and the pointer then stands behind it; 0 exactly when there is none |
| MemBlocks.ReleaseTiled | src/coroutine/co_memblock.c:9-41 | a release with coalescing on both sides keeps the tiling and removes exactly the released block from the live ones |
| MemBlocks.FreeShaped | src/coroutine/co_memblock.c:9-41 | a release keeps the whole heap shape, also when the roving top pointed into a block that has been merged away |
| MemBlocks.FreeTop | src/coroutine/co_memblock.c:37-39 | the roving pointer stays where it is unless it pointed into the free block that now holds the released address; then it falls back to that block's start |
| MemBlocks.ReleaseStale | src/coroutine/co_memblock.c:9-41 | a released header, which lies at the beginning or inside of a free block, lies in a free block after every further release, and so does the header released then |
| MemBlocks.WriteShaped | src/coroutine/co_memblock.c:9-133 | an owner's write into its payload changes that payload and nothing of the heap's shape |
| CoMemPool.MemPool.constructor | src/coroutine/co_memblock.c:43-59 | the created arena represents one free block of size plus header at 1 and the sentinel at max |
| CoMemPool.MemPool.Search | src/coroutine/co_memblock.c:66-109 | the loop over the in-band headers returns the start of the next-fit choice, or 0 when there is none |
| CoMemPool.MemPool.SplitOff | src/coroutine/co_memblock.c:117-127 | the header writes of the split represent the split block list, every back link included |
| CoMemPool.MemPool.Join | src/coroutine/co_memblock.c:24-35 | the header writes of one coalescing step represent the joined block list, the back link behind it included |
| CoMemPool.MemPool.Malloc | src/coroutine/co_memblock.c:61-133 | the byte-level allocator computes exactly the allocation on the block list, and changes nothing when there is no room |
| CoMemPool.MemPool.FreeAt | src/coroutine/co_memblock.c:9-41 | the byte-level release computes exactly the release on the block list, does nothing on a block that is free already, leaves the payload bytes and the length field readable, and every header released earlier still says so |
| CoMemPool.MemPool.Write | src/coroutine/co_context.c:116-143 | bytes stored by a block's owner change that block's payload only; all headers and all other payloads stay, and every released header still says so |
| CoMemPool.MemPool.PerformAll | src/coroutine/co_memblock.c:9-41 | any legal run of releases and payload writes computes the run on the block list, and a header released before it still says so after it |
| MemRuns.RunShaped | src/coroutine/co_memblock.c:9-133 | the heap shape survives every interleaving of allocations, releases and payload writes |
| MemRuns.PayloadsDisjoint | src/coroutine/co_memblock.c:9-133 | a byte of a live payload lies inside the arena, in no header and in no other live payload |
| MemRuns.MallocLive | src/coroutine/co_memblock.c:61-133 | an allocation adds exactly one live block, with the size asked for, at an address no live block has |
| MemRuns.RunKeeps | src/coroutine/co_memblock.c:9-133 | over any run that neither frees nor writes to it a live block keeps its place, its size and its bytes |
| MemRuns.NothingLive | src/coroutine/co_memblock.c:24-39 | a well-shaped arena without live blocks is one free block |
| MemRuns.FreeAll | src/coroutine/co_memblock.c:9-41 | freeing all live blocks, in any order, is a legal run and ends with one free block of the arena's full length |
| CoContext.SavedSurvives | src/coroutine/co_context.c:116-143 | a saved context stays whole under every interleaving of other allocations, releases and payload writes |
| CoContext.SavedFields | src/coroutine/co_context.c:327-369 | frame bytes, saved stack pointer and registers are read back from a block exactly as they were saved |
| CoContext.Coroutines.Save | src/coroutine/co_context.c:116-143 | a block then holds exactly the context of the frame; 0 exactly when no free block fits, and then the pool is unchanged; all other live blocks keep their bytes |
| CoContext.Coroutines.Restore | src/coroutine/co_context.c:346-369 | after the caller's own frame has been moved away the saved frame stands at its saved address byte for byte, nothing above it changes, and the caller's frame stands whole at its new place, which the restored frame does not touch |
| CoContext.Coroutines.Resume | src/coroutine/co_context.c:327-369 | a frame is restored byte for byte though its block is freed first; the coroutine is woken exactly when the block is in use and the stored length is no multiple of 65536; otherwise nothing at all changes |
| CoContext.Coroutines.ResumeAgain | src/coroutine/co_context.c:327-369 | a coroutine is resumed at most once: after its block has been released and any run of other releases and payload writes, a resume changes nothing |
| DictHash.KeyToIndex | src/util/hc_dict.c:11-33 | the hash loops end, read only inside the key, and give the hash of the 16-bit arithmetic, below the table's size |
| DictHash.HashInTable | src/util/hc_dict.c:11-33 | every key's slot lies inside the table for every table size, also for sizes 16 bits cannot hold |
| DictHash.TwoByteKeys | src/util/hc_dict.c:11-33 | in a table of 2^16 slots a key of two bytes goes to the slot its bytes name in little-endian order, plus 18 |
| DictHash.FoldWord | src/util/hc_dict.c:23-26 | the inner loop ends and sums the shifted copies of a word in a short |
| DictTable.FindSlot | src/util/hc_dict.c:113-153 | walking a bucket finds the slot of the key if the table has it, and otherwise the bucket's tail |
| DictTable.FindPosition | src/util/hc_dict.c:618-717 | walking a bucket by log position finds exactly the slot that holds that key |
| DictTable.InsertLinked | src/util/hc_dict.c:371-401 | hanging a new key behind its bucket's tail keeps every bucket a chain of exactly its keys in log order |
| DictTable.InsertedKeys | src/util/hc_dict.c:371-401 | an insertion gives the new key one slot and leaves every other key and datum in the slot it had |
| DictTable.TailUnique | src/util/hc_dict.c:371-401 | a bucket has one tail, so the place of a new key is determined |
| DictLog.AddKeyConsistent | src/util/hc_dict.c:371-430 | links, slots, key headers, key log and key positions still describe the same keys after a key is added |
| DictLog.PutDataConsistent | src/util/hc_dict.c:432-547 | storing data in one slot keeps all of it consistent and every other key's data |
| DictLog.RebuildNext | src/util/hc_dict.c:618-717 | the walk over the key log meets every key once, and never one already in the new table |
| DictLog.RebuildRoom | src/util/hc_dict.c:618-717 | the overflow array cannot run out while the table is rebuilt |
| DictLog.RebuildEnd | src/util/hc_dict.c:618-717 | when the walk ends the new table holds every key of the log with the data it had before |
| DictLog.NumberRoundTrip | src/util/hc_dict.c:155-224 | a stored number is read back unchanged when it fits the width it was stored with, 1, 2, 4 or 8 bytes |
| DictLog.StoredValue | src/util/hc_dict.c:432-547 | a byte string is stored whole, of a number its low bytes, and a null pointer leaves no byte, and with length 0 no value where there was none |
| DictLog.OrderCovers | src/util/hc_dict.c:893-902 | the key log lists exactly the known keys, each once |
| Dict.Dictionary.constructor | src/util/hc_dict.c:35-61 | a new dictionary is usable, and then the empty map with a power of two of slots, at least 32 and at least what was asked for, if and only if 32 bits hold the number of slots and a signed int the bytes of its buffers |
| Dict.CreatableIff | src/util/hc_dict.c:35-61 | that is so exactly for requests below 2^26, from 2^27 on below 2^28, and from 2^29 on below 2^31 |
| Dict.Dictionary.TableSize | src/util/hc_dict.c:37-46 | the size loop ends with the power of two above the request and not above twice the request, cut to 32 bits |
| Dict.Dictionary.GetItem | src/util/hc_dict.c:113-153 | a slot is found exactly for the keys of the map, and it is the key's own slot |
| Dict.Dictionary.GetNum | src/util/hc_dict.c:155-224 | the number stored under a key, read by the width of the stored datum; -1 for a missing key, for one without data and for one stored under another type |
| Dict.Dictionary.GetPtr | src/util/hc_dict.c:227-281 | the bytes stored under a key, and none exactly when the key is missing, has no data, or the dictionary is numeric |
| Dict.Dictionary.SetItem | src/util/hc_dict.c:340-547 | the map afterwards differs from the old one in the one key only, across chain collisions, the growth of both buffers and the rehash: it holds the whole byte string, the low bytes of the number, or no byte for a null pointer; the key order is the old one, or the old one and the new key |
| Dict.SetThenGetPtr | src/util/hc_dict.c:227-281 | a byte string stored under a key, new or not, is found there as it was |
| Dict.SetThenGetNull | src/util/hc_dict.c:227-281 | after a null pointer is stored nothing is found but an empty string, and not even that with length 0 where there was no value |
| Dict.SetThenGetNum | src/util/hc_dict.c:155-224 | a number that fits its width is found as it was stored, in both kinds of dictionary |
| Dict.Dictionary.AddNew | src/util/hc_dict.c:371-430 | a new key is linked, logged and counted; every other key keeps its value |
| Dict.Dictionary.MoveKey | src/util/hc_dict.c:673-704 | one key of the log is hung on the new table with the data of its old slot |
| Dict.Dictionary.Rebuild | src/util/hc_dict.c:618-717 | the walk over the key log fills a new table that is consistent with the same log |
| Dict.Dictionary.Remap | src/util/hc_dict.c:618-717 | a rehash changes the table's size and no key's value; at most one overflow slot per key is in use afterwards |
| Dict.Dictionary.Double | src/util/hc_dict.c:537-542 | the table doubled at half load stands for the same map |
| Dict.Dictionary.GetItemByKindex | src/util/hc_dict.c:893-902 | at the header of the i-th key the item is that key's own slot, and the cursor moves to the next header or behind the log |
| Dict.Dictionary.VisitKeys | src/util/hc_dict.c:893-902 | the walk visits every key of the map once, in the order of first insertion |
| Rings.SplitIn | src/util/hc_data.c:31-40 | queueing a borrowed record turns the first hole into the end of the pending part; pending grows by it and the free part stays |
| Rings.SplitOut | src/util/hc_data.c:42-52 | taking a record off the queue turns the head of the pending part into the end of the free part |
| Rings.SplitGet | src/util/hc_data.c:20-29 | handing out a record turns the head of the free part into a hole |
| Rings.SplitCancel | src/util/hc_data.c:10-18 | taking a record back turns the last hole into the head of the free part; when that part begins at slot 0 the head is then whatever the last slot holds, because the index is wrapped after the store |
| Rings.PartedCancelIff | src/util/hc_data.c:10-18 | putting a record in front of the free list keeps the partition of all records if and only if it is the borrowed record taken back |
| Rings.Queue.constructor | src/util/hc_data.c:133-139 | an empty queue |
| Rings.Queue.InitDatas | src/util/hc_data.c:147-158 | a queue full of the given values in order |
| Rings.Queue.In | src/util/hc_data.c:85-95 | the value is appended and its slot returned; -1 and no change exactly when the queue is full |
| Rings.Queue.Out | src/util/hc_data.c:97-106 | the oldest value is removed and returned; nothing exactly when the queue is empty |
| Rings.Queue.CancelIn | src/util/hc_data.c:75-83 | the value queued last is taken back and its slot set to the given value; with the next slot at 0 the store goes in front of the array, and on an empty queue the length becomes negative |
| Rings.Queue.DropByIndex | src/util/hc_data.c:116-131 | the head of the queue takes the place of the value dropped and is returned; nothing is returned for the head itself and for an empty queue; a slot outside the queue swallows the head |
| Rings.RecycleQueue.constructor | src/util/hc_data.c:54-66 | all records are free, in order, and none is pending or borrowed |
| Rings.RecycleQueue.GetData | src/util/hc_data.c:20-29 | the first free record is borrowed; pending, borrowed and free still make up all records, in the three cyclic parts of the array |
| Rings.RecycleQueue.In | src/util/hc_data.c:31-40 | a borrowed record is appended to the pending ones, first in first out, and the partition of all records stays |
| Rings.RecycleQueue.Out | src/util/hc_data.c:42-52 | the oldest pending record is returned and becomes the last free one; nothing exactly when none is pending |
| Rings.RecycleQueue.CancelData | src/util/hc_data.c:10-18 | a borrowed record becomes the first free one, and the partition of all records survives if and only if the free list does not begin at slot 0 or the last slot happens to hold that record |
| EventLoop.CallbackLoop.PrepareCallback | src/coroutine/co_ioloop.c:97-106 | a free record, held by nobody, is filled in; what is scheduled does not change |
| EventLoop.CallbackLoop.CallbackIn | src/coroutine/co_ioloop.c:91-95 | the prepared record is scheduled with the values last stored in it and the argument given now |
| EventLoop.CallbackLoop.AddCallback | src/coroutine/co_ioloop.c:108-118 | the callback is scheduled last; nothing changes exactly when no record is free |
| EventLoop.CallbackLoop.CancelCallback | src/coroutine/co_ioloop.c:86-89 | a prepared record is free again if and only if the free list does not begin at slot 0 or its last slot holds that record; what is scheduled does not change |
| EventLoop.CallbackLoop.Next | src/coroutine/co_ioloop.c:156-159 | the callback run next is the first one scheduled, with the values it was scheduled with; it never comes out empty while the turn's count is not used up |
| EventLoop.CoLoop.Perform | src/coroutine/co_ioloop.c:86-118 | what one operation appends to the schedule: the callback added if a record is free, the prepared record with its argument, and nothing for a preparation or one that is withdrawn, which leaves the free list as it was at every slot |
| EventLoop.CoLoop.PerformAll | src/coroutine/co_ioloop.c:86-118 | any sequence of queue operations appends exactly the callbacks that its operations queue, in order, and leaves the machine's state |
| EventLoop.CoLoop.RunTurn | src/coroutine/co_ioloop.c:138-160 | a turn runs exactly the callbacks scheduled when it began, in order and with their values; what is scheduled afterwards is exactly what the handlers and then the callbacks have queued meanwhile, in order, none lost; so what handlers add comes first, whatever the callbacks do, and what callbacks add comes next |
| EventLoop.TurnAdds | src/coroutine/co_ioloop.c:138-160 | of handlers that add callbacks, with records enough, theirs are queued first, whatever the bodies do; if these only add, too, theirs come next, and nothing else |
| EventLoop.CoLoop.RunFiring | src/coroutine/co_ioloop.c:91-106 | a record that a handler prepares and a callback fires is scheduled behind what the other handlers add, with the values it was prepared with and the argument it is fired with |
| ConnRuns.StepSound | src/util/hc_data.c:261-323 | each operation keeps every connection in exactly one of idle, closed, in use, handed over and lost, waiters only while nothing is left to give, and at most keep_num idle connections |
| ConnRuns.RunSound | src/util/hc_data.c:261-323 | over all runs each connection stays in exactly one place; the registrations that nobody else took back are those served, one connection each and in the order they came, followed by those still waiting; the connections lost are exactly those of the waiters that returned nothing |
| ConnRuns.ClearedIff | src/util/hc_data.c:261-274 | after any run a slot of the wait queue holds 0 if and only if the last store into it was a 0 |
| ConnRuns.WaiterServedIff | src/util/hc_data.c:261-274 | a waiter whose hand-over is run returns its connection if and only if the last store into its slot since it queued up, if there was one, was not the 0 of a refused or taken-back registration |
| ConnRuns.NothingLost | src/util/hc_data.c:261-323 | over every run whose refusals all meet a full wait queue no connection is lost and nobody's registration is taken back |
| ConnRuns.StepCloses | src/util/hc_data.c:305-323 | only a connection given back is added to the closed ones, and only when nobody waits and at least keep_num are idle |
| ConnRuns.ClosedWhenKept | src/util/hc_data.c:305-323 | over runs: a connection that is closed afterwards and was not before has been given back when nobody waited and at least keep_num were idle |
| ConnRuns.StockTaken | src/util/hc_data.c:276-303 | the oldest idle connection is given; or else half of keep_num, at least one, of the closed ones are opened, the oldest first, and the first of them is given |
| ConnRuns.LostAtWrap | src/util/hc_data.c:261-274 | with two places, a waiter whose slot a third coroutine was refused before it resumed loses its connection and takes back the other waiter's registration |
| ConnRuns.FreshSound | src/util/hc_data.c:213-245 | the created pool is sound: all connections closed |
| ConnPool.Pool.constructor | src/util/hc_data.c:213-245 | the queues represent the pool with every connection closed, as many as the larger of keep_num and max; all of them lie in the block allocated for them if and only if keep_num is not larger |
| ConnPool.Pool.Reopen | src/util/hc_data.c:291-303 | the oldest closed connections, as many as asked for or as there are, are appended to the idle ones |
| ConnPool.Pool.TakeOpen | src/util/hc_data.c:276-284 | the oldest idle connection, or one reopened, is given out; none exactly when there is neither |
| ConnPool.Pool.WaitCallback | src/coroutine/co_network.c:731-746 | a prepared record that resumes the saved coroutine is left in the wait slot; when no record is free or saving fails the record is given back and the slot cleared |
| ConnPool.Pool.Wait | src/util/hc_data.c:261-268 | the coroutine is queued last, in the slot its frame remembers, exactly when there is a place, a free record and a saved context; otherwise the wait queue is as before, but a free slot taken for it holds 0 |
| ConnPool.Pool.QueueUp | src/util/hc_data.c:261-268 | queueing up is the registration, or the refusal, of the runs |
| ConnPool.Pool.Get | src/util/hc_data.c:276-289 | the oldest idle connection, or else the oldest closed one while half of keep_num are opened; else the coroutine, saved under its block, waits last, or is refused |
| ConnPool.Pool.HandOver | src/util/hc_data.c:305-313 | the coroutine that has waited longest is scheduled to be resumed from the block it was saved under, with the connection |
| ConnPool.Pool.Recycle | src/util/hc_data.c:305-323 | the connection is handed to the longest waiter; else it is appended to the idle ones while fewer than keep_num are idle, else to the closed ones; in the first case exactly one callback is scheduled, which resumes that waiter's saved block with the connection, and none in the others |
| ConnPool.Pool.TakeBack | src/util/hc_data.c:75-83 | a resumed waiter that found a 0 takes back the registration made last, whoever made it; with none left the queue's length becomes negative |
| ConnPool.Pool.Resumed | src/util/hc_data.c:269-273 | a resumed waiter returns the connection it was handed if and only if its slot is not 0; else it returns nothing and the connection is lost |
| ConnPool.Pool.RunNext | src/coroutine/co_ioloop.c:156-159 | the loop's next callback, if it resumes a coroutine of the pool, is the oldest hand-over, with that coroutine's block and connection; the pool then is as Resumed says, and any other callback leaves it alone |
| ConnStack.WaiterNotScheduled | src/util/hc_data.c:305-313 | a coroutine that still waits for a connection is not about to be resumed |
| ConnStack.System.Save | src/coroutine/co_context.c:116-143 | a coroutine is saved in a block that no other waits in and no callback resumes; all contexts saved earlier stay whole |
| ConnStack.System.Get | src/util/hc_data.c:261-289 | a connection, or the coroutine is saved with its frame and registers and queued, or nothing; it is saved only when it can be queued, and nothing need be known of the block |
| ConnStack.System.Recycle | src/util/hc_data.c:305-323 | the callback that hands on a connection names a block that holds its coroutine's context, and no other callback names that block |
| ConnStack.System.Resume | src/coroutine/co_context.c:327-369 | a saved coroutine goes on with the registers and the frame it was saved with, and every other context stays whole |
| ConnStack.System.RunNext | src/coroutine/co_ioloop.c:156-159 | the loop's next callback resumes its coroutine with the registers and the frame it was saved with, exactly once; one that waited for a connection is the one served longest ago, with its connection, which it returns unless its slot has become 0 |
| TimeSlots.TargetLives | src/util/hc_time_array.c:178-225 | one forwarding hop is enough: the slot a live slot was renewed into lives at least as long, has not been renewed itself and is not in its second half |
| TimeSlots.TakeKeeps | src/util/hc_time_array.c:62-82 | a slot taken for a new entry is dead, is no live slot's target, and no live slot changes |
| TimeSlots.RenewKeeps | src/util/hc_time_array.c:200-215 | a renewal leads both the old handle and the new one to the old data, under the old check, and keeps one hop enough for all slots |
| TimeSlots.ForGetKeeps | src/util/hc_time_array.c:178-225 | a read is answered exactly for a valid index, a matching check and a live slot, and leaves what every live handle shows |
| TimeSlots.ForGetLeads | src/util/hc_time_array.c:178-225 | an answered read ends at the handle's data in a slot that is not forwarded any more; with renewal that slot has more than half of its life ahead |
| TimeSlots.ForGetBuffers | src/util/hc_time_array.c:205-212 | the swap of a renewal keeps the buffers disjoint and a permutation of the original ones |
| TimeSlots.LengthSurvives | src/util/hc_time_array.c:200-215 | the data length is not carried along: the length a reader sees survives a read exactly when no other slot is taken or the taken slot already holds the same length |
| TimeSlots.LengthLost | src/util/hc_time_array.c:200-215 | in every fresh ring of two slots or more whose buffers lie inside their block the first entry, of whatever length, reads with length 0 after its renewal |
| TimeSlots.SetMemGood | src/util/hc_time_array.c:141-157 | a new entry keeps the ring's invariant and every slot's buffer |
| TimeSlots.SetMemFinds | src/util/hc_time_array.c:141-157 | a new entry is refused exactly when the cursor's slot lives; else it goes there, the cursor moves on, and under its index as many of its first bytes are found as the buffer holds, with that length |
| TimeSlots.SetMemOthers | src/util/hc_time_array.c:141-157 | a new entry changes no byte that a live handle shows |
| TimeSlots.UsesCount | src/util/hc_time_array.c:62-82 | a slot's check counts its uses in its low 32 bits, and comes back only after a multiple of 2^32 of them |
| TimeSlots.OldHandleRefused | src/util/hc_time_array.c:178-225 | when a slot has been taken for a new entry without a check of its own, a read that compares the earlier entry's check is refused |
| TimeSlots.FreshGood | src/util/hc_time_array.c:46-60 | the buffers laid out at the start are disjoint and inside their block if and only if 32 bits hold the size of all of them |
| TimeSlots.HandleKeepsData | src/util/hc_time_array.c:178-225 | over every run with a clock that does not run backwards a handle shows the same word and bytes under the same check until its slot's time is over, whatever others set and renew |
| TimeSlots.BuffersPermuted | src/util/hc_time_array.c:178-225 | over every run the slots' buffers stay a permutation of the original ones |
| TimeSlots.ReaderKeepsSession | src/util/hc_time_array.c:178-225 | of any number of reads with renewal, no two more than half a span apart, each succeeds with the check compared and shows the first word and bytes, whatever others do in between |
| TimeSlots.RoundKeeps | src/util/hc_time_array.c:178-225 | a handle good for half a span is read successfully within it, with the same data and check, and the handle the read gives is good for half a span |
| TimeArray.TimeRing.constructor | src/util/hc_time_array.c:9-60 | the fresh ring satisfies the invariant, at every later time, if and only if 32 bits hold the size of its block; less than one slot asked for means 32 |
| TimeArray.TimeRing.GetNewIndex | src/util/hc_time_array.c:62-82 | the in-place code takes the slot that TimeSlots.TakeSlot takes |
| TimeArray.TimeRing.GetIndexForGet | src/util/hc_time_array.c:178-225 | the in-place code leads where TimeSlots.ForGet leads and leaves the ring it gives |
| TimeArray.TimeRing.GetItem | src/util/hc_time_array.c:227-246 | the slot a handle leads to, with the word the handle showed before |
| TimeArray.TimeRing.SetItemMem | src/util/hc_time_array.c:141-157 | a new entry in place, as TimeSlots.SetMem says, with the invariant kept: refused exactly when the cursor's slot lives, else found with its first bytes and their number |
| HttpQuickCheck.HeadParser.ReadVerb | src/http/http_header.c:99-172 | the method's letters, lowered in place, and everything up to the first slash, as the automaton reads them |
| HttpQuickCheck.HeadParser.ReadPath | src/http/http_header.c:103-200 | the path with its 16-bit index and length, summed over pieces, from the last leading slash and without a slash at its end |
| HttpQuickCheck.HeadParser.ReadQuery | src/http/http_header.c:201-213 | the query's length, summed over pieces |
| HttpQuickCheck.HeadParser.ReadVersion | src/http/http_header.c:214-233 | the version's length, up to blanks or the end of the line |
| HttpQuickCheck.HeadParser.IsEnd | src/http/http_header.c:25-42 | succeeds exactly when a line feed follows the carriage return |
| HttpQuickCheck.HeadParser.EscapeRight | src/http/http_header.c:70-83 | the length of a name without the blanks at its end |
| HttpQuickCheck.HeadParser.ReadName | src/http/http_header.c:254-268 | a header name, lowered in place and trimmed, or the blank line; a line without a colon fails |
| HttpQuickCheck.HeadParser.ReadValue | src/http/http_header.c:281-293 | a value's offset and length are entered under its name, in place of an earlier entry |
| HttpQuickCheck.HeadParser.Finish | src/http/http_header.c:304-323 | 0, or -2 for an unknown method, with the head's length |
| HttpQuickCheck.HeadParser.QuickCheck | src/http/http_header.c:85-323 | answer, fields, lowered buffer and saved position are those of the automaton fed with the bytes since the last call; what lies behind the buffer's fill is untouched |
| HttpHead.BadByte | src/http/http_header.c:103-303 | which bytes each part of a head refuses, and that a header's value refuses none: below 32 or above 126 in the path, the query, the version and a header name, but for the carriage return that ends the version or a head |
| HttpHead.LowerLetters | src/http/http_header.c:103-123 | letters are lowered by 32, and no other byte changes |
| HttpPrint.RefusedAt | src/http/http_header.c:103-303 | a head is refused at the first byte that its path, query, version or a header name may not hold, whatever follows, and at no other byte there |
| HttpRoundTrip.CheckRefused | src/http/http_header.c:85-323 | the parser answers -1 for such a head, and not -1 when it goes on with any other byte there |
| HttpRoundTrip.CheckPieces | src/http/http_header.c:90-91 | calls on a growing buffer, cut inside the path, the query, the version, names, values, the blanks before a value or right behind a line feed, give the answer and the fields of one call on all of it |
| HttpRoundTrip.CheckPrinted | src/http/http_header.c:85-323 | for every well-formed printed head, its names of at most 127 bytes, with any number of blanks before the version and around header names, any text behind the version and anything behind the head, the parser answers 0 (or -2), and method number, header_len, path, query, version length and header index are the printed ones |
| HttpRoundTrip.VerbExact | src/http/http_header.c:149-165 | the number stored for a method is the one of its name in the method dictionary, 0 for none, if and only if it is not a four-letter word that begins with po and is not post |
| HttpPrint.ParsePrinted | src/http/http_header.c:85-323 | parsing undoes printing: the automaton ends exactly behind a printed head with method, path, query, version and index of the request |
| HttpPrint.LastFieldCounts | src/http/http_header.c:281-293 | the index entry of a name is the position of the last value printed under it |
| HttpPrint.OtherNames | src/http/http_header.c:281-293 | no name is entered that was not printed |
| HttpPrint.PrintedValue | src/http/http_header.c:281-293 | an entry holds the value's length above its offset, and they cut exactly the printed value out of the lowered buffer |
| HttpPrint.PathExact | src/http/http_header.c:173-200 | the 16-bit path fields denote the printed path if and only if it begins with one slash, does not end with one (but "/" without query may), and offset and length are below 32768 |
| HttpPrint.PathKept | src/http/http_header.c:173-200 | of a path with one slash in front all is kept but a slash at its end; that of / stays when no query follows |
| NumText.NumToStr | src/util/hc_util.c:95-135 | the digits, highest first, with a minus sign, stand right-aligned in the buffer with the reported length; no other byte changes |
| NumText.StrToNum | src/util/hc_util.c:162-202 | succeeds exactly on digits of the base after an optional minus sign, with the value modulo 64 bits |
| NumText.TextRead | src/util/hc_util.c:95-202 | reading the text of any number gives the number back, in base 10 and 16 |
| NumText.HexTable | src/util/hc_util.c:95-202 | the digits written are 0 to 9 and A to F; those read are these and a to f, and no other byte |
| NumText.ValueLast | src/util/hc_util.c:162-202 | the last digit counts ones, and those before it so many times the base |
| NumText.DigitsFit | src/util/hc_util.c:95-135 | a number has at most k digits exactly when it is below the base's k-th power |
| NumText.WriteThenRead | src/util/hc_util.c:95-202 | writing and reading back is the identity for every number of absolute value below 2^63, with 20 bytes of room in base 10 and 17 in base 16 |
| MemMove.MoveFront | src/util/hc_util.c:346-386 | the word-wise move towards the front equals memmove, also when the ranges overlap, and changes no byte outside its target |
| Percent.MemBuf.CheckSize | src/util/hc_util.c:619-631 | there is room for the bytes asked for, the contents stay, and a buffer too small grows to twice the size needed |
| Percent.MemBuf.EncodeUri | src/http/http_util.c:200-247 | the encoded text is appended to the growing buffer and its length returned |
| Percent.LeftAlone | src/http/http_util.c:210-236 | the encoder leaves alone the unreserved characters of RFC 3986, the slash, and those printable characters that a URI may not hold at all; of the reserved ones it leaves only the slash; all other bytes become a percent sign and two digits |
| Percent.DecodeInto | src/http/http_header.c:390-420 | decoding succeeds with the reference's result exactly when the reference decodes, inside a buffer no longer than the source |
| Percent.DecodeOne | src/http/http_header.c:390-420 | a percent sign and two digits stand for one byte, and are refused without them; a plus stands for a blank, any other byte for itself |
| Percent.RoundTripIff | src/http/http_util.c:200-247 | decoding undoes encoding if and only if the text has no percent sign |
| Percent.EscapeLost | src/http/http_util.c:200-247 | an escape already in the text is left as it is and decoded as one byte |
| Percent.DecodedLength | src/http/http_header.c:390-420 | what is decoded from an encoded text is never longer than the text, and shorter when it has a percent sign |
| HttpChunk.CompleteIff | src/http/http_client.c:1061-1127 | a buffer holds a chunked body of the form of RFC 9112 section 7.1, without extensions and trailers, with this payload and nothing behind it, if and only if the reader's view is a body with this payload, all sizes and line ends in form and two bytes behind the last size line |
| HttpChunk.TextRead | src/http/http_client.c:1061-1127 | of chunks in form and a closing size line the reader makes their data, whatever follows that line, also nothing at all |
| HttpChunk.ReadText | src/http/http_client.c:1061-1127 | conversely a reading that is in form comes from such chunks |
| HttpChunk.ChunkRead | src/http/http_client.c:1102-1121 | a chunk is read whatever two bytes end it |
| HttpChunk.BlanksBefore | src/http/http_client.c:1069-1076 | blanks in front of a size line are skipped |
| HttpChunk.FramesRead | src/http/http_util.c:66-89 | the frames of any list of non-empty pieces and the closing chunk are in form, with the joined pieces as payload |
| HttpChunk.CutInSize | src/http/http_client.c:1081-1101 | a buffer that ends anywhere inside a size line, behind any chunks, is read as such a cut |
| HttpChunk.CutInChunk | src/http/http_client.c:1102-1121 | a buffer that ends anywhere inside the data or the line end of a chunk, behind any others, is read as such a cut, with the chunk's size and the length of its size line |
| HttpChunk.SizeRefused | src/http/http_client.c:1081-1101 | a body is malformed when a size line, behind any chunks, goes on behind its digits with a byte that is no digit and no carriage return, or behind the carriage return with neither a line feed nor a digit |
| HttpChunk.CutBeforeEnd | src/http/http_client.c:1102-1109 | a body without its closing CRLF is read as a body all the same |
| HttpChunk.PrefixRead | src/http/http_client.c:1061-1127 | what the reader makes of the first bytes of a body in form: missing data between two chunks exactly at the end of a chunk, missing data inside a chunk, or a reading that ends early |
| HttpChunkIO.Response.Write | src/http/http_util.c:66-89 | a chunk in the format of RFC 9112 section 7.1 is sent behind the head, which goes out once; empty data sends the closing chunk and finishes |
| HttpChunkIO.Response.Finish | src/http/http_util.c:39-64 | the last data and, after chunks, the closing chunk are sent; nothing is sent after the end |
| HttpChunkIO.Response.SendAll | src/http/http_util.c:39-89 | a response written in pieces is the head, one frame for each piece, and the closing chunk |
| HttpChunkReader.ChunkReader.ReadSize | src/http/http_client.c:1069-1101 | the size line is read as the reference reads it |
| HttpChunkReader.ChunkReader.TakeChunk | src/http/http_client.c:1102-1121 | a chunk's bytes are moved up over bytes that have all been read; the unread rest is untouched, and unless a read has ended inside a chunk the payload then stands right behind the untouched head |
| HttpChunkReader.ChunkReader.CheckBodyChunk | src/http/http_client.c:1061-1127 | first call or a later one: -1 exactly for a malformed body, a positive number exactly when data is missing between or inside chunks, 0 exactly when the closing size line has been read or the buffer ends inside a size line; after a closing size line the payload stands right behind the untouched head, if no read has ended inside a chunk, and the buffer's length is head plus payload plus the bytes behind that line, less two and less the size lines counted again |
| HttpChunkReader.ReceiveReads | src/http/http_client.c:743-797 | a body in form received in any number of reads: all are used if and only if none but the last ends inside a size line or behind the last one; then recv_buf.len and rsp_content_len are right if and only if every read but the last ends between two chunks, and otherwise they are off by the size lines and the sizes of the chunks reads have ended in |
| HttpChunkReader.RefuseBody | src/http/http_client.c:1081-1101 | the reader answers -1 for such a body |
| HttpChunkReader.ReceivePieces | src/http/http_client.c:1061-1127 | what was framed in pieces is received as their concatenation in place, with recv_buf.len head plus body |

## Left out

- CoMemPool.MemPool.Malloc: requires at least two blocks or a single block that fits, because the code's search does not end otherwise; the arena is below 2^63 bytes, and calloc's failure is not modelled.
- CoContext.Coroutines.Resume: the machine stack is an array indexed by address and the registers are a record; the inline assembly, the `ret` value and the jump to the saved return address are not part of this model. The caller's own frame must have room below the saved one, as the code takes for granted.
- CoContext.Coroutines.Save: requires an arena in which the search ends, as the allocator does; hc_co_context_save_pre, hc_co_context_restore_pre and the variants with a given register array are not modelled.
- Dict.Dictionary.SetItem: keys have at most 127 bytes and both logs stay below 2^29 bytes, because the growth code adds up four times a needed length in C ints; a number is stored under the number type and with 1, 2, 4 or 8 bytes. List values, negative lengths that stand for strlen, the status-1 delete flag, flg_fix mode, hc_dict_has and the format and JSON functions are left out. The two logs are kept as records by byte position instead of raw bytes; all positions, capacities and growth steps are the code's. The NULL result for a full table cannot occur, which the load invariant shows.
- Dict.Dictionary.GetNum: numbers of widths other than 1, 2, 4 and 8 bytes read as the code's failure.
- Rings.Queue.CancelIn: what else may stand in front of the array that a store at index -1 hits is not modelled; it is one word of its own, here and in Rings.RecycleQueue.CancelData. What the code does after a negative length is left out: the pool's runs end there.
- ConnPool.Pool.constructor: requires keep_num or max to be positive, because otherwise the code's queues have no slots.
- ConnPool.Pool.Get: takes the block a coroutine is saved in as given, one that no coroutine of the pool and no scheduled resumption names yet; ConnStack.System.Get does without that. Opening, pinging and closing the connections themselves is left out.
- ConnStack.System.Save: requires a context whose length is no multiple of 65536, because it would never be resumed (CoContext.Coroutines.Resume), and an arena in which the search ends. hc_co_return, which changes the frame it saves, is left out; callbacks that resume other coroutines than the pool's are covered.
- EventLoop.CoLoop.RunTurn: epoll, timers, sockets and signals are foreign; event handlers and callbacks are arbitrary sequences of queue operations. A prepared record is cancelled only right behind its preparation, as in the only place of the code that does it; EventLoop.CallbackLoop.CancelCallback covers all others.
- TimeArray.TimeRing.GetItem: an index below -1, for which the code reads in front of the array, the check function hook, TA_IGNORETIME, renewal by writing, appending to an entry, entries that are numbers and hc_timedict are left out; the clock does not run backwards.
- TimeArray.TimeRing.GetIndexForGet: an index below -1 is left out, for the same reason.
- HttpQuickCheck.HeadParser.QuickCheck: requires the buffer not to end between CR and LF or in text between the version and the end of its line, where the code looks at the byte behind the buffer's end. url_version_index (set to the start of the piece read last), method_len and srv_code are left out; the method dictionary is a map, and header names are keys of any length, while the dictionary proper holds names of 1 to 127 bytes: its 8-bit length cuts longer ones, so that HttpPrint.WellFormedField stops there.
- HttpRoundTrip.CheckPieces: heads cut inside the method, right behind the leading slash or in the blanks before the version are not covered, because the saved fields do not carry these.
- NumText.NumToStr: the number -2^63, whose negation overflows, and bases other than 10 and 16 are left out.
- Percent.MemBuf.EncodeUri: a failing realloc and lengths of 2^32 and more are left out.
- HttpChunkIO.Response.Write: the text of the response head is a parameter (not empty in HttpChunkIO.Response.SendAll), and writing to the connection always succeeds.
- HttpChunkReader.ChunkReader.CheckBodyChunk: chunk sizes are below 2^31. After a read that ended in blanks before a size line, and when the size lines counted again are longer than all that stands before the body, so that the code would store in front of the buffer, nothing is promised for later calls.
- HttpChunkReader.ReceiveReads: the bytes of all reads stand in one buffer from the start, which is not reallocated between them; time-outs and closed connections are left out, and so is rsp_content_len beyond 2^31.
- hc_mem_move with a positive offset, hc_bin_cmp beyond its use for method names, hc_http_encodeuri, hc_array.c, the client's response head, routing, configuration, logging and foreign libraries.
