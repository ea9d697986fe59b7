# Verified models of a C++ systems repository

The repository collects a reactor network library, reference-counted pointers, memory pools, thread
pools, an asynchronous echo server, a WebSocket handshake, a chat client and a packet replayer. This
project models the protocols and algorithms at its centre in Dafny 4.11 and proves what they are for.
`dafny verify dfyconfig.toml` checks all of it.

Three forms of model are used.

- Concurrent protocols are interleaving state machines: one step is one atomic operation, one lock
  section or one flag access of some thread, `Enabled` says what program order allows, and the main
  results quantify over every run (`EventLoop`, `ControlBlock`, `SwapQueue`, `ThreadPool`). What was queued,
  posted, pushed or held is computed from the calls of the run alone.
- Objects that the source updates in place are classes with the same fields. Their methods are proved
  against functions on values, the results about whole histories are proved of those functions, and
  replays take objects through them (`VariablePool` and `IndexedPool` with `PoolReplay`, `Buffer`, `Poller`,
  `TcpConnection`, `Sha1`, `Session` with `SessionHistory`, `ChatClient`, `Packet`).
- Codecs have an independent reference: FIPS PUB 180-1 for SHA-1 (`Fips180`), RFC 4648 groups for base64,
  an octet-by-octet receiver for framing (`Framing`), the lines of the whole stream for chat, and the
  ones' complement sum of RFC 1071 for the IP header checksum. The published examples of
  FIPS PUB 180-1 and of RFC 6455 are proved as known answers (`AbcAnswer`, `TwoBlockAnswer`, `AcceptExample`).

Memory addresses are offsets from the start of the pool, a block header is 32 bytes, and the chain of
blocks (`BlockChain`) is a sequence that the linked headers in memory (`BlockHeaders`) represent.

## Findings

Each is a lemma that says exactly when the code meets the property.

- A functor queued on the loop's own thread before `loop()` starts is not announced; it waits for the
  poll's timeout (`EventLoop.NoLostWakeupExactly`).
- `loop()` clears the quit flag when it starts, so a `quit()` before that is erased and the loop polls on
  (`EventLoop.NoLostQuitExactly`, `EventLoop.ErasedQuit`).
- Assignments release the old reference first and read their source afterwards. With `p` the only owner,
  `p = p->next` reads a destroyed node and counts up a freed block (`ControlBlock.AdvanceTouchesFreed`).
  The exact conditions are `ControlBlock.NoUseAfterFreeExactly`, over runs, and
  `AssignmentTest.AssignmentExactly`, before the call.
- A pool of no threads keeps its tasks for ever (`ThreadPool.ShutdownDrains`).
- A shutdown queued from another thread that runs after the close ends the write side with bytes still
  buffered (`TcpConnection.CutsOffExactly`, `TcpConnection.CutOffReached`).
- `find_best_fit` is documented as best fit with each class ordered by size. The code keeps each class in
  a set of pointers, which is ordered by address: it is best fit only from 1 MiB on
  (`PoolFindings.BestFitExactly`), and within a factor of two from 5 bytes on.
- The chain spans one header more than the pool was given. Its last block, if at most 32 bytes, can be
  handed out, but `owns` then refuses to take it back (`PoolModel.OwnsExactly`,
  `PoolFindings.NotTakenBack`).
- A request so large that rounding wraps is rounded to 0 and succeeds with a smaller block
  (`PoolModel.AlignUpExact`, `PoolFindings.WrappedRequestSucceeds`).
- Only block sizes are rounded, so payloads are aligned exactly for alignments that divide the 32-byte
  header; an alignment of 64 does not hold (`PoolFindings.AlignedExactly`).
- Chat messages and file records survive exactly without the delimiters named in
  `ChatClient.WireExactly` and `FileRecord.TransferRoundTripExactly`.
- Parsing a TCP or UDP packet with an empty payload leaves the old payload in the record
  (`Packet.ParsedExactly`, `Packet.ParseBuilt`); the total length of a packet of 2^16 octets or more wraps
  (`Packet.LengthFieldExactly`).

## Model

| member | source | states |
|---|---|---|
| `EventLoop.NoLostWakeupExactly` | mymuduo/EventLoop.cc:63-192 | For every prelude of calls before loop() clears its flag: in every interleaving that follows, with any number of queueing threads, a loop at poll with pending functors has an unread wakeup or a thread between its push and its wakeup, if and only if the loop thread queued nothing in the prelude or another thread announced something in it |
| `EventLoop.NoLostQuitExactly` | mymuduo/EventLoop.cc:63-109 | For every prelude: in every interleaving that follows, whenever the loop is at poll and the run holds a quit() call there is an unread wakeup or a thread about to write one, if and only if no quit() came before loop() cleared the flag |
| `EventLoop.ErasedQuit` | mymuduo/EventLoop.cc:63-109 | The run in which a quit() of another thread is erased: the loop is at poll with no wakeup and nobody to write one |
| `EventLoop.StopsExactly` | mymuduo/EventLoop.cc:63-109 | After a prelude without quit(), in every interleaving: the loop leaves at its next test if and only if the run holds a quit() call, and never otherwise |
| `EventLoop.QuitInvStep` | mymuduo/EventLoop.cc:63-109 | Once loop() has cleared the flag, every step of every thread keeps each later quit() noticed |
| `EventLoop.EveryFunctorOnceInOrder` | mymuduo/EventLoop.cc:124-192 | In every interleaving executed functors, the rest of the batch and the pending list are the functors of all queueInLoop calls of the run, on any thread, in lock order; and what is executed or in the batch is what had been queued when the batch was taken, so a functor queued during a batch waits for the next |
| `EventLoop.OneTripExecutesAll` | mymuduo/EventLoop.cc:63-90 | From every reachable poll with an unread wakeup one undisturbed trip round the loop executes the functors of all calls so far and empties the pending list |
| `EventLoop.WakeInvStep` | mymuduo/EventLoop.cc:63-192 | Every step of every thread keeps the wakeup invariant: past the swap, pending functors have a wakeup due |
| `EventLoop.FlagInvStep` | mymuduo/EventLoop.cc:63-192 | Every step of every thread keeps the flags in step with the position of the loop |
| `EventLoop.QueueInvStep` | mymuduo/EventLoop.cc:124-192 | Every step of every thread keeps the order and the batch boundary of the functors |
| `ControlBlock.NoUseAfterFreeExactly` | mystl/memory/weak_ptr.cpp:19-304 | In every interleaving of creations, copies, moves, resets, assignments and locks by any number of threads, over objects that themselves hold handles: no step touches a freed control block or a destroyed object or releases a reference twice, if and only if no assignment or reset has its target or source in an object that its own release destroyed |
| `ControlBlock.SafeExactly` | mystl/memory/weak_ptr.cpp:135-161 | In a consistent state the only unsafe steps are those that go on with such a target or source |
| `ControlBlock.AdvanceTouchesFreed` | mystl/memory/weak_ptr.cpp:135-147 | The run of p = p->next with p the only owner of its node: the source is read in the destroyed node and a reference is added to the freed block of the next one |
| `AssignmentTest.AssignmentExactly` | mystl/memory/weak_ptr.cpp:135-161 | The test before the call: after any safe run an undisturbed assignment or reset is safe if and only if neither target nor source lies in an object that goes with the old reference, that is, whose shared handles are the target alone or lie in objects that go with it |
| `AssignmentTest.AssignmentMeans` | mystl/memory/weak_ptr.cpp:135-161 | After any safe run, once an undisturbed copy, move or reset is done the target holds what the source held, or is empty; a move empties the source; every other handle is as before, except those in objects that go with the old reference |
| `PointerMeaning.HandlesMean` | mystl/memory/weak_ptr.cpp:94-304 | In every safe interleaving the handles are those of plain pointer semantics, computed from the operations alone with lock() counting the shared handles: no counters, phases or deletions |
| `PointerMeaning.LockExactly` | mystl/memory/weak_ptr.cpp:50-60 | From every state of a safe interleaving an undisturbed lock() gives the target a shared reference if there is a shared handle, and otherwise leaves it empty |
| `PointerMeaning.GivesUpOnlyExpired` | mystl/memory/weak_ptr.cpp:50-60 | In every safe interleaving lock() gives up only when the strong count is 0 and no shared handle is left |
| `ControlBlock.ApartIsSafe` | mystl/memory/weak_ptr.cpp:19-304 | A program whose assignments and resets have target and source outside the managed objects is safe in every interleaving |
| `ControlBlock.HandlesKeepObjectAlive` | mystl/memory/weak_ptr.cpp:94-229 | In every safe interleaving an object with a shared handle has not been destroyed |
| `ControlBlock.LockedObjectAlive` | mystl/memory/weak_ptr.cpp:50-60 | In every safe interleaving, after a successful try_lock the object is alive when get_ptr() is read, whatever other threads did in between |
| `ControlBlock.DeletedAtMostOnce` | mystl/memory/weak_ptr.cpp:34-47 | In every safe interleaving object and block are each deleted at most once, the object first and without a shared handle left, the block without any handle left |
| `ControlBlock.DeletedExactlyOnceAtRest` | mystl/memory/weak_ptr.cpp:34-47 | In every safe interleaving, when no thread is inside an operation, the object is destroyed iff no shared handle holds the block and the block is freed iff no handle does |
| `ControlBlock.WeakCountExact` | mystl/memory/weak_ptr.cpp:68-72 | When its two loads see one state, get_weak_count() is the number of weak handles, and one more exactly while the last owner is between its decrement and the drop of the implicit weak reference |
| `ControlBlock.UseCountExact` | mystl/memory/weak_ptr.cpp:62-65 | In every safe interleaving use_count() is the number of shared handles, and expired() holds iff there is none |
| `ControlBlock.NeverStuck` | mystl/memory/weak_ptr.cpp:34-60 | In every safe interleaving a thread inside an operation has a next step, unless it destroys an object while another thread works on a handle in it |
| `ControlBlock.InvStep` | mystl/memory/weak_ptr.cpp:19-304 | Every atomic step but those unsafe ones keeps counters equal to handles, phases equal to deletions, and every thread position consistent with its block |
| `SwapQueue.BehavesAsOneQueue` | thread_pool2/threadpool.h:46-91 | Under every interleaving of producers, consumers and Cancel the items that left and those in the two queues are the items of all pushes in order, one gone for each take; a consumer at the swap returns false iff Cancel was called and everything pushed has left, sleeps iff everything has left without Cancel, and otherwise takes an item |
| `SwapQueue.InvStep` | thread_pool2/threadpool.h:51-83 | Every lock section keeps the FIFO and the meaning of each stage of Pop |
| `ThreadPool.ShutdownDrains` | thread_pool2/threadpool.h:93-133 | Once the last worker has left, the tasks of all posts of the run, from outside before Cancel or by a running task, have run to their end, once and begun in posting order; this holds for every interleaving iff the pool has a worker |
| `ThreadPool.QueuedTaskHasWorker` | thread_pool2/threadpool.h:10-44 | In every interleaving a posted task that has not been taken has an awake worker, so no notification is lost |
| `ThreadPool.CancelUnblocksAll` | thread_pool2/threadpool.h:33-38 | After Cancel every worker that has not left can go on: it finishes its task, takes the next in posting order, or leaves if none is left; so join does not hang on a sleeper |
| `ThreadPool.InvStep` | thread_pool2/threadpool.h:15-38 | Every step keeps the queue, shutdown, notification and run-once invariants |
| `PoolModel.EveryRunKeepsPool` | MemoryPool/core/VariableMemoryPool.hpp:29-126 | After every run of allocate, deallocate, reset and defragment the blocks tile header plus total_size, no two neighbours are free, the used counter is the sum of used blocks, offsets stay aligned, and defragment changes nothing |
| `PoolModel.CallEffect` | MemoryPool/core/VariableMemoryPool.hpp:29-126 | What each call does to the set of live allocations: one added where none was, of the rounded size if the rest of the block can hold a header and the alignment and else of the whole block; that one removed; none; or all; no other moves or is resized |
| `PoolModel.EveryBlockRoomy` | MemoryPool/core/VariableMemoryPool.hpp:36-45 | In every run without wrapped requests every block, free or used, has at least as many bytes as the alignment, unless the pool itself is smaller |
| `PoolModel.LiveDisjoint` | MemoryPool/core/VariableMemoryPool.hpp:29-59 | No two live allocations overlap, headers included |
| `PoolModel.AllocationStays` | MemoryPool/core/VariableMemoryPool.hpp:29-126 | An allocation keeps its place and size through every run that does not give it back |
| `PoolModel.AlignUpExact` | MemoryPool/core/VariableMemoryPool.hpp:148-150 | The rounded size is a multiple of the alignment and covers the request iff the rounding does not wrap at 2^64; when it wraps it is 0 |
| `PoolModel.OwnsExactly` | MemoryPool/core/VariableMemoryPool.hpp:152-157 | owns() accepts a payload iff it and the blocks after it fill more than one header |
| `PoolFindings.NotTakenBack` | MemoryPool/core/VariableMemoryPool.hpp:61-64 | A pool of 16 bytes hands out all of them and then refuses the pointer |
| `PoolFindings.WrappedRequestSucceeds` | MemoryPool/core/VariableMemoryPool.hpp:29-51 | On every free block of every pool a request whose rounding wraps succeeds with a block smaller than the request |
| `PoolFindings.AlignedExactly` | MemoryPool/core/VariableMemoryPool.hpp:29-51 | In every run every payload offset is a multiple of the alignment if and only if the alignment divides the 32-byte header |
| `BlockChain.OneMergePerSide` | MemoryPool/core/VariableMemoryPool.hpp:159-173 | On a coalesced chain one merge on each side does what merging as long as possible does |
| `BlockChain.FreedCoalesces` | MemoryPool/core/IndexedMemoryPool.hpp:376-412 | Freeing a block of a coalesced chain leaves it coalesced |
| `BlockChain.AllocatedCoalesces` | MemoryPool/core/VariableMemoryPool.hpp:34-47 | Splitting and handing out a block leaves the chain coalesced |
| `BlockChain.AllocatedLive` | MemoryPool/core/VariableMemoryPool.hpp:34-47 | Handing out keeps the total length, adds exactly one live allocation at the offset of the block and wastes less than a header and the alignment |
| `BlockChain.AllocatedExactly` | MemoryPool/core/VariableMemoryPool.hpp:34-47 | A block is cut iff it can keep a header and at least the alignment behind the bytes handed out; then exactly the request is handed out and the rest is a free block, otherwise all of it; no other block changes |
| `BlockChain.FreedLive` | MemoryPool/core/VariableMemoryPool.hpp:61-73 | Giving back removes exactly that allocation and its bytes and keeps the total length |
| `BlockChain.DefragmentKeeps` | MemoryPool/core/VariableMemoryPool.hpp:114-126 | defragment() moves no live allocation on any chain, coalesced or not |
| `BlockChain.DefragmentCoalesces` | MemoryPool/core/VariableMemoryPool.hpp:114-126 | One pass of defragment() leaves no two free neighbours on any chain |
| `BlockChain.DefragmentIdle` | MemoryPool/core/VariableMemoryPool.hpp:114-126 | On a coalesced chain defragment() changes nothing |
| `BlockHeaders.SplitRepresents` | MemoryPool/core/VariableMemoryPool.hpp:36-45 | The pointer writes of a split give linked headers of the split chain, prev and next mirroring each other |
| `BlockHeaders.MergeRepresents` | MemoryPool/core/VariableMemoryPool.hpp:161-172 | The pointer writes of a merge give linked headers of the merged chain |
| `BlockHeaders.SetFreeRepresents` | MemoryPool/core/VariableMemoryPool.hpp:46-66 | Setting the flag changes the mark of that block and no other |
| `VariablePool.VariableMemoryPool.constructor` | MemoryPool/core/VariableMemoryPool.hpp:17-23 | A fresh pool is one free block |
| `VariablePool.VariableMemoryPool.Allocate` | MemoryPool/core/VariableMemoryPool.hpp:29-59 | The scan hands out the first block that fits, with the effect of the model call, and returns null without a change iff none does |
| `VariablePool.VariableMemoryPool.Deallocate` | MemoryPool/core/VariableMemoryPool.hpp:61-73 | Null, foreign and already free pointers change nothing; any other has the effect of the model call |
| `VariablePool.VariableMemoryPool.MergeAround` | MemoryPool/core/VariableMemoryPool.hpp:159-173 | At most one merge on each side, on the linked headers |
| `VariablePool.VariableMemoryPool.Reset` | MemoryPool/core/VariableMemoryPool.hpp:98-108 | The pool is as fresh |
| `VariablePool.VariableMemoryPool.Defragment` | MemoryPool/core/VariableMemoryPool.hpp:114-126 | The pass over the linked headers has the effect of the model call |
| `VariablePool.FirstFit` | MemoryPool/core/VariableMemoryPool.hpp:32-57 | The first fitting block: none before it fits |
| `SizeIndex.AddedAgrees` | MemoryPool/core/IndexedMemoryPool.hpp:303-309 | Adding a free block keeps the indexes exact: each class holds its blocks, no class is empty, the address index holds all |
| `SizeIndex.RemovedAgrees` | MemoryPool/core/IndexedMemoryPool.hpp:312-325 | Removing a free block keeps the indexes exact and drops a class that becomes empty |
| `SizeIndex.ClassBounds` | MemoryPool/core/IndexedMemoryPool.hpp:273-300 | A class is at least the size, below twice the size from 5 bytes on, and the size itself above 1 MiB |
| `SizeIndex.ClassTable` | MemoryPool/core/IndexedMemoryPool.hpp:272-288 | The classes are the powers of two from 8 bytes to 1 MiB |
| `SizeIndex.ChosenNearlyBest` | MemoryPool/core/IndexedMemoryPool.hpp:328-348 | With m the smallest fitting size the chosen block has the class of m, is below 2m from 5 bytes on, and is exactly m above 1 MiB |
| `PoolFindings.BestFitExactly` | MemoryPool/core/IndexedMemoryPool.hpp:328-348 | For every alignment that divides the header and every rounded request: the search takes a smallest fitting block in every pool that a run of calls reaches, iff the request is at least 1 MiB |
| `PoolFindings.FreeTwo` | MemoryPool/core/IndexedMemoryPool.hpp:53-106 | The run of four allocations and two deallocations to a pool with free blocks of 1 MiB and of one alignment less |
| `PoolFindings.TakesTheLarger` | MemoryPool/core/IndexedMemoryPool.hpp:328-348 | In that pool the search takes the larger block for every request that the smaller one would fit |
| `IndexedPool.FindBestFit` | MemoryPool/core/IndexedMemoryPool.hpp:328-348 | The search returns null iff no free block is large enough, and otherwise the lowest class and in it the lowest address |
| `IndexedPool.FindsWhenFirstFitDoes` | MemoryPool/core/IndexedMemoryPool.hpp:328-348 | On any one chain the indexed search succeeds exactly when the first-fit scan does |
| `IndexedPool.IndexedMemoryPool.constructor` | MemoryPool/core/IndexedMemoryPool.hpp:27-47 | A fresh pool is one free block, and the indexes hold it |
| `IndexedPool.IndexedMemoryPool.Allocate` | MemoryPool/core/IndexedMemoryPool.hpp:53-85 | Null iff nothing is large enough; otherwise the chosen block with the effect of the model call, the indexes again holding exactly the free blocks |
| `IndexedPool.IndexedMemoryPool.SplitBlock` | MemoryPool/core/IndexedMemoryPool.hpp:351-373 | The split links the new block in and puts it into the indexes |
| `IndexedPool.IndexedMemoryPool.Deallocate` | MemoryPool/core/IndexedMemoryPool.hpp:87-106 | Null, foreign and already free pointers change nothing; any other has the effect of the model call, indexes included |
| `IndexedPool.IndexedMemoryPool.MergePrevious` | MemoryPool/core/IndexedMemoryPool.hpp:379-394 | The loop merges all free blocks to the left and takes each out of the indexes under its old size class |
| `IndexedPool.IndexedMemoryPool.MergeFollowing` | MemoryPool/core/IndexedMemoryPool.hpp:396-409 | The same to the right |
| `IndexedPool.IndexedMemoryPool.Reset` | MemoryPool/core/IndexedMemoryPool.hpp:133-151 | The pool and its indexes are as fresh |
| `IndexedPool.IndexedMemoryPool.Defragment` | MemoryPool/core/IndexedMemoryPool.hpp:184-210 | The merging pass has the effect of the model call, and the rebuilt indexes hold exactly the free blocks, whatever they held before |
| `PoolReplay.ReplayVariable` | MemoryPool/core/VariableMemoryPool.hpp:17-126 | A pool object through any list of calls: each had its effect in the model, a request being met iff a free block is large enough; the linked headers are those of a chain that tiles the buffer, is coalesced and counted right; every pointer still held is that of a live allocation |
| `PoolReplay.ReplayIndexed` | MemoryPool/core/IndexedMemoryPool.hpp:27-210 | The same for the indexed pool, whose indexes then hold exactly the free blocks |
| `PoolReplay.AfterGood` | MemoryPool/core/VariableMemoryPool.hpp:17-126 | Whatever the calls, the invariant of the model holds after them and only pointers to live allocations are held |
| `Buffer.Replay` | mymuduo/Buffer.h:42-128 | Over every history of appends, scatter reads and retrieves, what came out followed by what is left is what went in, and each retrieve gives as much as is asked for or there is |
| `Buffer.Buffer.Perform` | mymuduo/Buffer.h:42-128 | One operation on the buffer as a byte queue: what was held and what goes in is what comes out and what is held then, and a retrieve gives as much as is asked for or there is |
| `Buffer.Buffer.Append` | mymuduo/Buffer.h:73-87 | The readable bytes grow by the data, through growth or compaction alike |
| `Buffer.Buffer.MakeSpace` | mymuduo/Buffer.h:113-128 | Room for the request and the readable bytes unchanged |
| `Buffer.Buffer.MoveToFront` | mymuduo/Buffer.h:119-127 | The overlapping copy loses no readable byte |
| `Buffer.Buffer.Retrieve` | mymuduo/Buffer.h:42-57 | The front is dropped, all of it if more is asked for than there is |
| `Buffer.Buffer.RetrieveAsString` | mymuduo/Buffer.h:65-70 | The octets asked for; up to the readable ones, the result followed by what is left is what was readable |
| `Buffer.Buffer.ReadFd` | mymuduo/Buffer.cc:11-41 | The bytes of a scatter read arrive in order, those in the spill buffer included; an error changes nothing |
| `Poller.MirrorsKernel` | mymuduo/EPollPoller.cc:71-152 | For every sequence of enable, disable and remove calls on channels with distinct descriptors the kernel set is exactly the channels with index kAdded and their masks, the map exactly those not kNew, and no epoll_ctl call is refused |
| `Poller.WatchesExactly` | mymuduo/Channel.h:42-46 | For every sequence of calls and every descriptor: map and kernel have an entry iff the calls say so, and an event is in the mask iff the last call about it asked for it |
| `Poller.EPollPoller.UpdateChannel` | mymuduo/EPollPoller.cc:71-100 | Map, index and kernel entry of that channel change as the model says, those of others do not |
| `Poller.EPollPoller.RemoveChannel` | mymuduo/EPollPoller.cc:103-116 | The same for removal |
| `Poller.EPollPoller.Call` | mymuduo/Channel.h:42-46 | Setting the mask and updating the poller is one model call |
| `TcpConnection.StreamConserved` | mymuduo/TcpConnection.cc:88-263 | In every run the bytes the kernel took followed by the buffer are the bytes of all sends in order, except exactly those made when the connection was down and those that found the peer gone with nothing buffered; state, queued shutdowns and removal are what the calls alone say; while the connection is up and registered the kernel watches for input, and for writability iff bytes are buffered, and for nothing once it is down |
| `TcpConnection.CutsOffExactly` | mymuduo/TcpConnection.cc:154-171 | In every run a step that closes the write side leaves buffered bytes behind iff it is a queued shutdown that finds the connection already down with bytes buffered |
| `TcpConnection.CutOffReached` | mymuduo/TcpConnection.cc:154-171 | A run in which that happens: a shutdown queued by another thread runs after the close |
| `TcpConnection.ShutdownDone` | mymuduo/TcpConnection.cc:154-171 | In every run, if the calls leave the connection disconnecting with nothing queued and nothing waiting, its write side is closed and the bytes of all sends kept are out |
| `TcpConnection.ClosedOnlyIfAsked` | mymuduo/TcpConnection.cc:154-171 | In no run is the write side closed unless shutdown() was called |
| `TcpConnection.InvStep` | mymuduo/TcpConnection.cc:88-263 | Every event keeps exact interest, the pending shutdown and the registration |
| `TcpConnection.LineStep` | mymuduo/TcpConnection.cc:88-263 | Every event does to state, bytes taken and bytes waiting what the call means without buffer, channel and poller |
| `TcpConnection.TcpConnection.ConnectEstablished` | mymuduo/TcpConnection.cc:174-182 | The object, made of buffer, channel and poller, goes through the model step |
| `TcpConnection.TcpConnection.SendInLoop` | mymuduo/TcpConnection.cc:88-151 | The same for a send with any outcome of write |
| `TcpConnection.TcpConnection.HandleWrite` | mymuduo/TcpConnection.cc:217-251 | The same for a writable event with any outcome of write |
| `TcpConnection.TcpConnection.ShutdownCalled` | mymuduo/TcpConnection.cc:154-163 | The same for shutdown() on the loop thread or on another |
| `TcpConnection.TcpConnection.RunQueuedShutdown` | mymuduo/TcpConnection.cc:165-171 | The same for the queued shutdown |
| `TcpConnection.TcpConnection.HandleClose` | mymuduo/TcpConnection.cc:254-263 | The same for the close |
| `TcpConnection.TcpConnection.ConnectDestroyed` | mymuduo/TcpConnection.cc:185-194 | The same for the destruction |
| `Sha1.HashChunks` | websocket/websocket/sha1.cpp:100-212 | For every message and every way of cutting it into Input calls: a result iff it is below 2^61 octets, and then the digest of FIPS PUB 180-1 |
| `AbcAnswer.AbcDigest` | websocket/websocket/sha1.cpp:100-157 | The known answer of appendix A of FIPS PUB 180-1, one block |
| `TwoBlockAnswer.TwoBlockDigest` | websocket/websocket/sha1.cpp:100-157 | The known answer of appendix B, two blocks |
| `Sha1.Sha1.Input` | websocket/websocket/sha1.cpp:175-212 | Empty input does nothing, input after Result corrupts, other input extends the message and corrupts iff it reaches 2^61 octets |
| `Sha1.Sha1.InputByte` | websocket/websocket/sha1.cpp:190-211 | Message, block buffer, chaining value and the two length words stay in step for one more octet |
| `Sha1.Sha1.Result` | websocket/websocket/sha1.cpp:134-157 | Fails iff corrupted; otherwise the digest of the message, the same on every call |
| `Sha1.Sha1.PadMessage` | websocket/websocket/sha1.cpp:521-566 | The blocks compressed are the padding of section 4, in one block or two |
| `Sha1.Sha1.ProcessMessageBlock` | websocket/websocket/sha1.cpp:411-498 | The chaining value becomes the compression of section 7 |
| `Sha1.Sha1.Reset` | websocket/websocket/sha1.cpp:100-113 | The message is empty and the object neither computed nor corrupted |
| `Sha1.Expand` | websocket/websocket/sha1.cpp:421-438 | The array is W(0) to W(79) of section 7 |
| `Sha1.Rounds` | websocket/websocket/sha1.cpp:440-489 | The four loops are the eighty steps of section 7 |
| `Sha1.CountsMore` | websocket/websocket/sha1.cpp:194-204 | The length words wrap exactly when the message reaches 2^61 octets |
| `Fips180.AbsorbConcat` | websocket/websocket/sha1.cpp:411-498 | Hashing blocks in two parts is hashing them in one |
| `Base64.EncodeBytes` | websocket/websocket/base64.cpp:41-83 | The loop over three-octet slots gives the encoding of section 4 of RFC 4648 |
| `Base64.DecodeString` | websocket/websocket/base64.cpp:85-123 | The loop gives the octets of the characters before the first one outside the alphabet; the lookup failures in unfilled slots reach no octet that is kept |
| `Base64.RoundTrip` | websocket/websocket/base64.cpp:41-123 | Decoding undoes encoding for every octet string |
| `Base64.CanonicalExactly` | websocket/websocket/base64.cpp:41-123 | Encoding undoes decoding iff the text is whole groups with correct padding and zero spare bits |
| `Base64.SameNumber` | websocket/websocket/base64.cpp:49-56 | The four characters of a group are the same 24-bit number as its three octets |
| `Base64.FindDigit` | websocket/websocket/base64.cpp:31-39 | The lookup of a character is the inverse of the alphabet |
| `Base64.DigitInTable` | websocket/websocket/base64.cpp:31-34 | The alphabet is the 64-character table, in its order |
| `WebSocketAccept.Answer` | websocket/websocket/websocket_handler.cpp:56-76 | The response carries base64 of SHA-1 of key and GUID for every key without NUL, and of the part before the first NUL for others |
| `AcceptExample.ExampleAccepted` | websocket/websocket/websocket_handler.cpp:56-76 | The key of the example in section 1.3 of RFC 6455 gets the value given there |
| `WebSocketAccept.HashedExactly` | websocket/websocket/websocket_handler.cpp:60-66 | All of key and GUID is hashed iff the key has no NUL |
| `WebSocketAccept.Feed` | websocket/websocket/sha1.cpp:300-311 | Feeding a C string adds the characters before its NUL to the message |
| `SessionHistory.EndToEnd` | tcp_server/CSession.cpp:29-178 | Over every interleaving of read and write completions: if the octets received are the frames of messages of 0 to 2048 octets, exactly these are delivered, whatever the cuts, headers cut in two included; the frames written, one for each write completed, and waiting are, in order, among theirs; and for at most 1001 messages what is written and waiting is octet by octet what was received |
| `SessionHistory.EveryHistoryEchoes` | tcp_server/CSession.cpp:29-178 | The same for any octets: delivered messages are those of the octets alone, frames written and waiting are among theirs in order, all of them up to 1001, and the next read is outstanding unless one failed or a length was above 2048 |
| `SessionHistory.Serve` | tcp_server/CSession.cpp:29-178 | A session object through any such history ends where the history leads: receiver, queue, delivered messages and the outstanding read |
| `Session.Session.HandleRead` | tcp_server/CSession.cpp:74-178 | The bulk-copying handler does to receiver, queue and log what the octets do one by one, and asks for another read iff there were octets and no length above the maximum; an error closes and changes nothing else |
| `Session.Session.ReadHead` | tcp_server/CSession.cpp:79-140 | The branch for an incomplete header |
| `Session.Session.ReadBody` | tcp_server/CSession.cpp:142-170 | The branch for a message under way |
| `Session.Session.Deliver` | tcp_server/CSession.cpp:122-132 | A whole message is logged, echoed and followed by a fresh header |
| `Framing.StreamConserved` | tcp_server/CSession.cpp:74-172 | While the session lives, the octets received are the frames of the delivered messages and the octets of the one under way |
| `Framing.TooLongEnds` | tcp_server/CSession.cpp:103-107 | A length above 2048 after any messages ends the session with exactly those delivered |
| `Framing.FrameDecodes` | tcp_server/CSession.h:18-25 | A frame decodes to its message |
| `Framing.FrameLayout` | tcp_server/CSession.h:18-25 | A frame is the length, most significant octet first, and the message |
| `Session.MsgNode.Framed` | tcp_server/CSession.h:18-25 | The node holds the frame of the message and a NUL |
| `Session.MsgNode.Clear` | tcp_server/CSession.h:35-38 | The node is zero and empty |
| `SendQueue.EveryRunKeepsQueue` | tcp_server/CSession.cpp:29-72 | Over every history of sends and completions: the frames accepted are those of the sends made while at most 1000 were unwritten, the written ones are as many of them as writes completed, the others wait, at most 1001; until a write fails exactly one write is outstanding iff frames wait, that of the front frame |
| `SendQueue.NothingAfterFailure` | tcp_server/CSession.cpp:55-72 | After a failed write nothing is written any more |
| `SendQueue.SentAllAccepts` | tcp_server/CSession.cpp:29-44 | Messages are all accepted, in order, as long as there is room |
| `Session.Session.Send` | tcp_server/CSession.cpp:29-44 | A send has the effect of the queue model and keeps its invariant |
| `Session.Session.HandleWrite` | tcp_server/CSession.cpp:55-72 | A completion has the effect of the queue model and keeps its invariant |
| `ChatMessage.RoundTripExactly` | zsxq-cpp-ai/StdChatRoom/Message.cpp:21-76 | deserialize undoes serialize iff neither name holds a bar and the content holds no line break |
| `ChatMessage.LineMeans` | zsxq-cpp-ai/StdChatRoom/Message.cpp:32-76 | What any line of five fields means: number, sender, receiver, content with any bars, and time, the time of day standing for a time that is no number |
| `ChatMessage.ShortLineMeans` | zsxq-cpp-ai/StdChatRoom/Message.cpp:32-76 | What lines with fewer fields mean |
| `ChatMessage.SerializeExample` | zsxq-cpp-ai/StdChatRoom/Message.cpp:21-28 | A message as it goes over the wire |
| `ChatMessage.Deserialize` | zsxq-cpp-ai/StdChatRoom/Message.cpp:32-76 | The stream reader gives the fields that the line means, the missing and malformed ones included |
| `ChatMessage.SplitJoins` | zsxq-cpp-ai/StdChatRoom/ChatClient.cpp:415-430 | The lines and the rest joined again are the data, and no line holds a line break |
| `ChatMessage.SplitConcat` | zsxq-cpp-ai/StdChatRoom/ChatClient.cpp:412-430 | Lines do not depend on where the data are cut |
| `ChatClient.ChatClient.Receive` | zsxq-cpp-ai/StdChatRoom/ChatClient.cpp:412-430 | One receive passes on the messages of the lines completed and keeps the rest |
| `ChatClient.ReceiveAll` | zsxq-cpp-ai/StdChatRoom/ChatClient.cpp:394-432 | Receives one after another, each with its time of day: the messages passed on and the rest are those of the fold over the lines each completes |
| `ChatClient.ReceivedWhole` | zsxq-cpp-ai/StdChatRoom/ChatClient.cpp:394-432 | The rest is that of the whole stream, and so are the messages if its lines mean the same at any time |
| `ChatClient.WireExactly` | zsxq-cpp-ai/StdChatRoom/ChatClient.cpp:394-432 | For every cut of the stream of a list of messages into receives, at whatever times, the client passes on exactly that list iff no name holds a bar and no field a line break |
| `FileRecord.TransferRoundTripExactly` | zsxq-cpp-ai/StdChatRoom/FileInfo.cpp:153-192 | A session with its inner record survives iff none of its eight strings holds a bar |
| `FileRecord.InfoRoundTripExactly` | zsxq-cpp-ai/StdChatRoom/FileInfo.cpp:51-80 | A file description survives iff none of its five strings holds a bar |
| `FileRecord.DeserializeTransfer` | zsxq-cpp-ai/StdChatRoom/FileInfo.cpp:167-192 | The reader with its rejoin loop gives the record that the fields mean |
| `FileRecord.DeserializeInfo` | zsxq-cpp-ai/StdChatRoom/FileInfo.cpp:65-80 | The reader gives the record that the fields mean, missing and malformed numbers included |
| `FileRecord.RejoinInner` | zsxq-cpp-ai/StdChatRoom/FileInfo.cpp:176-183 | The loop puts the text of the inner record together again |
| `FileRecord.SerializeExamples` | zsxq-cpp-ai/StdChatRoom/FileInfo.cpp:51-80 | A file description as it goes over the wire, and what the empty text reads as |
| `FileRecord.SerializeTransferExample` | zsxq-cpp-ai/StdChatRoom/FileInfo.cpp:153-164 | The same for a transfer session |
| `TextFields.PrintRead` | zsxq-cpp-ai/StdChatRoom/Message.cpp:21-28 | A printed number reads back |
| `TextFields.ReadMeans` | zsxq-cpp-ai/StdChatRoom/Message.cpp:39-41 | Numbers are read behind white space and a sign |
| `TextFields.Stream.GetLine` | zsxq-cpp-ai/StdChatRoom/Message.cpp:38-56 | Reading up to a delimiter takes what is before it and fails only at the end |
| `Checksum.Fold` | pcap_replay/src/packet_modifier.cpp:201-204 | The carry loop ends with the ones' complement sum |
| `Checksum.FoldedCarry` | pcap_replay/src/packet_modifier.cpp:201-204 | One carry makes the sum smaller and keeps its ones' complement value |
| `Checksum.HeaderChecksum` | pcap_replay/src/packet_modifier.cpp:192-208 | The complement of the ones' complement sum of the words, exact in 32 bits up to 65537 words |
| `Checksum.StoredChecks` | pcap_replay/src/packet_modifier.cpp:87-94 | Stored in a zero field of any header, the checksum makes the sum all ones |
| `Checksum.OnlyThatChecks` | pcap_replay/src/packet_modifier.cpp:87-94 | A value stored there makes the sum all ones iff it is that checksum modulo 65535 and the sum is not zero |
| `Packet.ParseBuilt` | pcap_replay/src/packet_modifier.cpp:39-175 | Parsing a built packet into any record recovers addresses, protocol and ports, and the payload iff it is not empty, the record held none or the protocol has no ports |
| `Packet.StalePayload` | pcap_replay/src/pcap_parser.cpp:165-173 | A record that keeps its old payload |
| `Packet.RoundTrip` | pcap_replay/src/packet_modifier.cpp:39-175 | Built and parsed into a fresh record a packet is the same again |
| `Packet.HeaderChecks` | pcap_replay/src/packet_modifier.cpp:42-98 | The header of every built packet checks and has its fields in place |
| `Packet.IpFields` | pcap_replay/src/packet_modifier.cpp:42-98 | Every field of the IP header of a built packet at its octets |
| `Packet.TcpFields` | pcap_replay/src/packet_modifier.cpp:101-139 | The same for TCP |
| `Packet.UdpFields` | pcap_replay/src/packet_modifier.cpp:140-168 | The same for UDP, whose length field is the length behind the IP header modulo 2^16 |
| `Packet.LengthFieldExactly` | pcap_replay/src/packet_modifier.cpp:72-85 | The length field is the length of the packet iff that is below 2^16 |
| `Packet.BuildPacket` | pcap_replay/src/packet_modifier.cpp:39-175 | The packet is header, transport header and payload |
| `Packet.Record.ParseIp` | pcap_replay/src/pcap_parser.cpp:90-137 | The record after parsing any octets, short and malformed ones included |
| `Packet.ParsedExactly` | pcap_replay/src/pcap_parser.cpp:90-201 | For any octets: accepted iff 20 octets, both header lengths claimed and the smallest TCP header are there, header lengths below 20 included; then addresses, protocol and ports are those of the headers and the payload is all behind both, except that nothing behind a TCP or UDP header leaves the old one; octets that are not accepted leave the payload, and fewer than 20 the whole record |
| `Packet.Record.ParseTcp` | pcap_replay/src/pcap_parser.cpp:139-174 | The same for the TCP part |
| `Packet.Record.ParseUdp` | pcap_replay/src/pcap_parser.cpp:176-201 | The same for the UDP part |

## Left out

- Time: how long anything blocks, poll timeouts as durations, and fairness of schedulers. Atomic operations are sequentially consistent; weaker memory orders are not modelled.
- System calls, Boost.Asio, OpenSSL and epoll themselves: a read or write is given by its outcome, and the kernel's interest set by the effect of epoll_ctl on it.
- Destructors of managed objects that do more than destroy the handles in them, and handles that two threads use at once without synchronisation, which includes destroying an object while another thread works on a handle in it.
- ControlBlock.WeakCountExact: the two loads of `get_weak_count()` see one state; a change between them is not modelled.
- Real addresses and failing allocations in the pools: the pool starts at offset 0, the total size, a header and the alignment fit into 64 bits, and `align_up` is arithmetic for alignments that are powers of two. Pool statistics are not modelled.
- `TcpConnection::send`'s hand-over from another thread, the callbacks and the high-water mark: the model starts at `sendInLoop` with its bytes as a value. `handleRead` and `handleError` are not modelled.
- Session.Session.HandleRead: excludes frame lengths with the top bit set, which are negative numbers to the session and lead to an allocation of negative size, outside what C++ defines for the handler.
- Session.Session.ReadHead: excludes the same lengths.
- SessionHistory.Serve: excludes the same lengths, and takes from Boost.Asio that a read without an error brings at least one octet.
- `CServer` and the session table of the echo server.
- The time of day is a parameter of the chat and file record readers, one value for each receive.
- Packet.BuildPacket: takes the TCP or UDP checksum as an input, because the program computes it from a header alone and without the pseudo-header.
- Ethernet frames, filters and capture files of the replayer.
- The hexadecimal file transfer encoding, user interface, server and file storage of the chat room.
- WebSocket frames and the HTTP header map: only the answer to a key is modelled; the key has to leave room for the GUID below 2^61 octets.
- `mystl/memory/shared_ptr.cpp`, the containers, fixed-size pools, `ReactorHttp-Cpp`, `send_pcap.cpp`, loggers, the other thread pools and message queues, the design pattern samples and the 5G core: they repeat what is modelled, are easy, or are mostly input and output.
