# Verified models of the CactKernel core

CactKernel is an i686 kernel. This project models those of its parts whose correctness is a
statement about whole runs, about all inputs, or about one program agreeing with another, and
proves those statements:

- the block page cache over the block-device table: the pool's hash, LRU and flag views agree
  under every interleaving, pins are exact in exactly the runs without a certain race, and over
  complete calls the cache looks exactly like direct disk access;
- streaming xxHash64: any chunking gives the one-shot hash;
- the spin mutex and reader-writer lock, as atomic steps of any number of threads;
- POSIX message queues: priority and send order, the shared byte budget, one-shot notification,
  and the lifetime of queues;
- the cctkfs archive: the repacking writer, the boot-time reader, and the directory tree;
- ELF segment loading, the real-time clock's calendar, lazy timers, the terminal's line
  discipline and the kernel log ring.

State that the kernel updates in place is a class (`BlockLayer`, `LruList`, `HashChains`,
`PagePool`, `Hasher`, `MQueue`, `Budget`, `ModBlob`, `Synth`, `Timer`, `Vt`, `Scrollback`,
`ByteRing`, `KernelLog`), with the kernel's arrays; the page cache's lists and the tree have their
links, and a message queue's list is a sequence. Each method is tied to a function on values, and the
laws are proved of those functions. Protocols are step functions over a global state. Page-pool
slots and tree nodes are indices, with -1 for the null pointer.

`dafny verify dfyconfig.toml` checks the whole project.

Where the code and its own comments differ, the model follows the code:

- `_mq_do_notify` signals at once when the queue is not empty and calls that POSIX; in
  POSIX.1-2017, mq_notify(), the registration waits for a message to arrive at an empty queue.
- `cctkfs_tree.h` speaks of first-level names to leave out; only first-level directories are.
- `klog_feed` says an OSC escape sequence ends with BEL; the code ends it at the first byte in
  0x40..0x7E as well.
- `_spec_to_state` says a passed absolute deadline expires at once; at tick 1 it stores 0 and the
  timer is disarmed (`TimerFd.PastDeadlineFires`).
- `RwLockReadGuard` says that it restores the flags of its own `read`; a reader that overlaps it may
  have stored others (`SpinRwLock.ReadersMix`).
- `rtc_decode` rejects what "is not a date", but accepts 31 days in every month (`Rtc.OrderIff`).

Properties that the code has only under a condition are stated with it, in both directions:

- `pc_get_page` gives a lost slot back in two stores after it has dropped the lock. A reservation in
  between costs the new owner its pin (`PageCacheProtocol.PinsIff`, `PageCacheRaces`).
- A returned `pc_mark_dirty` means that the page was written since, unless another writeback of the
  page had written and not yet cleared its flag at the mark (`PageCacheMarks.MarkDurableIff`).
- The byte budget of the message queues holds for up to 523009 threads
  (`MessageQueueBudget.BudgetIff`); queue names are distinct up to 127 characters
  (`MessageQueues.NamesIff`); a message fits its receiver's buffer unless the limits were lowered
  while it waited (`MessageQueue.FitsIff`).
- Overlapping readers of the reader-writer lock share one cell for their interrupt flags
  (`SpinRwLock.RestoredIff`).
- A partition of a disk with a 15-character name ending in a digit gets a name that overruns its
  buffer (`BlkDev.PartitionNameFits`).

## Model

| member | source | states |
|---|---|---|
| BlkDev.Reachable | Cact/drivers/block/blkdev/blkdev.c:30-371 | After any sequence of register, unregister, add-partition and clear-partitions calls from boot: ids are slot numbers, every live partition lies inside a live whole disk, the count is the number of live slots, a disk has at most 16 partitions, and there is a boot disk exactly when some whole disk is live. |
| BlkDev.RegisterKeepsInv | Cact/drivers/block/blkdev/blkdev.c:45-89 | Registering a disk, or failing to, keeps the table invariant. |
| BlkDev.AddKeepsInv | Cact/drivers/block/blkdev/blkdev.c:300-351 | Adding a partition, or refusing it, keeps the invariant; in particular the new partition lies inside its disk. |
| BlkDev.ClearKeepsInv | Cact/drivers/block/blkdev/blkdev.c:353-371 | Clearing a disk's partitions keeps the invariant and the count. |
| BlkDev.DropKeepsInv | Cact/drivers/block/blkdev/blkdev.c:107-131 | Unregistering a disk with its partitions keeps the invariant and the boot-device rule. |
| BlkDev.Window | Cact/drivers/block/blkdev/blkdev.c:212-248 | A sector access succeeds if and only if the sector is inside the device, and then touches the one root-disk sector start+lba, which lies on a live whole disk. |
| BlkDev.BlockLayer.AllocSlot | Cact/drivers/block/blkdev/blkdev.c:23-28 | The slot scan returns the first free slot, if there is one. |
| BlkDev.BlockLayer.Find | Cact/drivers/block/blkdev/blkdev.c:149-156 | The name scan returns the first live slot with that name. |
| BlkDev.BlockLayer.PickBoot | Cact/drivers/block/blkdev/blkdev.c:30-38 | The boot device becomes the first live whole disk. |
| BlkDev.BlockLayer.PartCount | Cact/drivers/block/blkdev/blkdev.c:373-381 | The scan counts the live partitions of a disk. |
| BlkDev.BlockLayer.RegisterDisk | Cact/drivers/block/blkdev/blkdev.c:45-89 | The in-place tables become the specified value, with the same return code, and stay valid. |
| BlkDev.BlockLayer.AddPart | Cact/drivers/block/blkdev/blkdev.c:300-351 | The in-place tables become the specified value and the new slot, or nothing on refusal. |
| BlkDev.PartitionNameFits | Cact/drivers/block/blkdev/blkdev.c:277-298 | The composed name and its terminator fit the 16-byte buffer if and only if the disk's name does not have 15 characters and end in a digit; in that case what is kept of it is the disk's own name. |
| BlkDev.NameOfPartition | Cact/drivers/block/blkdev/blkdev.c:300-340 | A partition that is added has its disk's name in exactly that case. |
| BlkDev.BlockLayer.ClearParts | Cact/drivers/block/blkdev/blkdev.c:353-371 | Exactly the disk's partitions are blanked, the count drops by their number, and that number is returned. |
| BlkDev.BlockLayer.UnregisterDisk | Cact/drivers/block/blkdev/blkdev.c:107-131 | The disk and its partitions are blanked and the boot device is picked again. |
| BlkDev.BlockLayer.Read | Cact/drivers/block/blkdev/blkdev.c:212-229 | A read returns the sector of the root disk the window law names, or fails. |
| BlkDev.BlockLayer.Write | Cact/drivers/block/blkdev/blkdev.c:231-248 | A write changes that one physical sector and no other, or nothing. |
| PageCacheSteps.StepKeepsBase | Cact/drivers/block/pagecache/pagecache.c:57-360 | Every step of every thread, whatever the pin counts are, keeps hash, LRU and VALID flags in agreement, one owner for each claimed slot, and a writeback in flight for each dirty page. Excepted are the removal of a page that has left the lists meanwhile, and the store of a flag byte that was loaded before its slot changed hands. |
| PageCacheProtocol.StepKeepsInv | Cact/drivers/block/pagecache/pagecache.c:57-360 | A step also keeps the pin accounting (a live page's count is its client pins plus its writebacks in flight, a claimed slot has one), and no pinned page leaves or changes identity, unless it reserves a slot whose former owner has cleared its flags and not yet its pin count. |
| PageCacheProtocol.PinsIff | Cact/drivers/block/pagecache/pagecache.c:158-273 | Over every run from a good state, with any number of threads: pins are exact in every state, and stay so when a pending second store lands, if and only if no reservation takes a slot whose former owner stands between its two stores. |
| PageCacheProtocol.NoRaceNoBreak | Cact/drivers/block/pagecache/pagecache.c:107-136 | In such a run no page is unlinked twice and no outdated flag byte is stored, so that it is followed to its end. |
| PageCacheRaces.RaceLosesPin | Cact/drivers/block/pagecache/pagecache.c:158-273 | From every state in which a reservation races: the new owner publishes its block, holds it and has pin count 0, and another thread's invalidation removes the page under it. |
| PageCacheRaces.RaceReachable | Cact/drivers/block/pagecache/pagecache.c:181-265 | Such a state is reached from boot for any two blocks a disk has: two threads miss one block, one of them loses, and a third reserves its slot between the two stores. |
| PageCacheRaces.UnpinnedStrays | Cact/drivers/block/pagecache/pagecache.c:130-136 | Once a held page has lost its pin, a dirty page can be left unpinned, and pc_invalidate_block can resume on a page that is gone. |
| PageCacheRaces.UnpinnedTears | Cact/drivers/block/pagecache/pagecache.c:107-125 | And a writeback can store flags that it loaded before the page was removed. |
| PageCacheRaces.HeldPageRemoved | Cact/drivers/block/pagecache/pagecache.c:107-336 | As runs from boot: a client holds a block and its page is removed; or its page is left dirty without a pin, and further on a page is removed twice; or a removed page is marked VALID. |
| PageCacheProtocol.NothingForgotten | Cact/drivers/block/pagecache/pagecache.c:107-273 | After any interleaving from boot, races included, up to such an excepted step: a dirty page has a writeback in flight, and a slot is reserved exactly when one thread, and only one, is working on it. |
| PageCacheProtocol.ViewsAgree | Cact/drivers/block/pagecache/pagecache.c:57-360 | After any interleaving of any number of threads from boot, races included, up to such an excepted step: VALID iff on the LRU list iff in the chain of its own bucket, each once, and no two VALID slots hold one block. |
| PageCacheProtocol.DirtyPinned | Cact/drivers/block/pagecache/pagecache.c:107-136 | Where pins are exact and the lock is free, a DIRTY page has a writeback in flight and so a positive pin count. |
| PageCacheProtocol.EvictionIsClean | Cact/drivers/block/pagecache/pagecache.c:139-155 | There the eviction victim is never dirty, so eviction does no I/O under the lock. |
| PageCacheProtocol.PinnedStays | Cact/drivers/block/pagecache/pagecache.c:130-164 | One step never removes a pinned page or gives it another (dev, block). |
| PageCacheProtocol.PinnedAcrossRun | Cact/drivers/block/pagecache/pagecache.c:181-299 | While some client keeps a block pinned it stays in its slot over every interleaving without such a race, although the lock is dropped for disk traffic. |
| PageCacheProtocol.HolderLive | Cact/drivers/block/pagecache/pagecache.c:181-273 | Where pins are exact, a block that a client holds is found in the cache, with a positive pin count. |
| PageCacheMarks.MarkDurableIff | Cact/drivers/block/pagecache/pagecache.c:107-136 | A returned mark means that the page was written since the mark, whatever the other threads do in every run without a race, if and only if at the mark no thread stood between its write of the page and its clearing of the flag. |
| PageCacheMarks.ContentsDurableIff | Cact/drivers/block/pagecache/pagecache.c:107-136 | The same for the contents at the mark, over the runs in which no client writes to the block before the call returns. |
| PageCacheMarks.DirtyIff | Cact/drivers/block/pagecache/pagecache.c:107-136 | While a thread that marked a page waits to write it, the page is dirty exactly when the last event on its flag, of any thread, was a mark and not the end of another writeback. |
| PageCacheMarks.MarkReachesDisk | Cact/drivers/block/pagecache/pagecache.c:107-136 | The thread's own writeback writes the page's contents of that moment in exactly that case, and otherwise nothing. |
| PageCacheMarks.LostMark | Cact/drivers/block/pagecache/pagecache.c:277-284 | Two threads mark one block, the second after writing to it: both calls return, the page is clean, and the disk has the old contents. |
| PageCacheMarks.LostMarkFromStart | Cact/drivers/block/pagecache/pagecache.c:277-284 | The same as a run from boot, for any block a disk has. |
| PageCacheTransparency.Transparent | Cact/drivers/block/pagecache/pagecache.c:181-360 | After any disciplined sequence of complete calls from boot, pc_get_page answers the last contents written to the block or its original contents, answers whenever the block is cached or can be cached, and every block with no unmarked write has those contents on the disk. |
| PageCacheTransparency.GetIsDirect | Cact/drivers/block/pagecache/pagecache.c:181-273 | In any faithful state a get returns what direct disk access would, and returns a buffer whenever it can. |
| PageCacheTransparency.CallFaithful | Cact/drivers/block/pagecache/pagecache.c:181-360 | Each complete call, with all the steps it takes, keeps the cache faithful to the reference disk. |
| PageCacheTransparency.RunFaithful | Cact/drivers/block/pagecache/pagecache.c:181-360 | So does any disciplined sequence of calls. |
| PageCacheTransparency.NoSharedSector | Cact/drivers/block/pagecache/pagecache.c:107-125 | Distinct blocks of devices that do not alias have no sector in common. |
| PageCacheTransparency.WriteBlockDirect | Cact/drivers/block/pagecache/pagecache.c:107-125 | Writing a block back makes direct reads of it return the data and leaves every other block as it was. |
| PageCacheModel.RemoveKeepsWf | Cact/drivers/block/pagecache/pagecache.c:57-92 | Unlinking a page from both lists keeps the three views in agreement. |
| PageCacheModel.InsertKeepsWf | Cact/drivers/block/pagecache/pagecache.c:67-104 | Publishing a page into its bucket and the LRU head keeps them. |
| PageCacheModel.FindOk | Cact/drivers/block/pagecache/pagecache.c:74-83 | The bucket lookup finds a block exactly when some VALID page holds it. |
| PageCacheModel.AllocOk | Cact/drivers/block/pagecache/pagecache.c:139-164 | Allocation gives a free slot and changes no other, evicting an unpinned page if it must, and fails only when every VALID page is pinned. |
| PageLists.LruList.Remove | Cact/drivers/block/pagecache/pagecache.c:86-92 | The doubly linked list loses exactly this slot, with both neighbours relinked. |
| PageLists.LruList.Touch | Cact/drivers/block/pagecache/pagecache.c:95-104 | The slot moves to the head; the rest keeps its order. |
| PageLists.HashChains.Find | Cact/drivers/block/pagecache/pagecache.c:74-83 | The chain walk returns the first slot of the chain with this key. |
| PageLists.HashChains.Insert | Cact/drivers/block/pagecache/pagecache.c:67-71 | The slot becomes the head of its chain; other chains are unchanged. |
| PageLists.HashChains.Remove | Cact/drivers/block/pagecache/pagecache.c:57-64 | The slot is unlinked from its chain, if it is there. |
| PageCache.PagePool.constructor | Cact/drivers/block/pagecache/pagecache.c:167-178 | The initial object represents the empty cache. |
| PageCache.PagePool.Lookup | Cact/drivers/block/pagecache/pagecache.c:181-192 | The hit path is the protocol's lookup step. |
| PageCache.PagePool.Writeback | Cact/drivers/block/pagecache/pagecache.c:107-125 | A dirty page's sectors are written and the flag cleared; a clean page is left alone. |
| PageCache.PagePool.FindVictim | Cact/drivers/block/pagecache/pagecache.c:139-155 | The walk from the LRU tail finds the least recently used page that is not pinned. |
| PageCache.PagePool.Evict | Cact/drivers/block/pagecache/pagecache.c:139-155 | Eviction writes back, unlinks and frees that page. |
| PageCache.PagePool.Alloc | Cact/drivers/block/pagecache/pagecache.c:158-164 | The first unused slot, else an evicted one. |
| PageCache.PagePool.Reserve | Cact/drivers/block/pagecache/pagecache.c:194-236 | The miss path reserves a slot for the block, or gives up. |
| PageCache.PagePool.FillSlot | Cact/drivers/block/pagecache/pagecache.c:238-254 | The reserved slot is filled from the disk with the lock dropped; allocation may fail. |
| PageCache.PagePool.PublishSlot | Cact/drivers/block/pagecache/pagecache.c:256-272 | The filled slot is published, unless another thread published the block first. |
| PageCache.PagePool.LoseSlot | Cact/drivers/block/pagecache/pagecache.c:259-266 | A slot that lost the race to publish goes back in two stores outside the lock, as two steps of the protocol. |
| PageCache.PagePool.GetPage | Cact/drivers/block/pagecache/pagecache.c:181-273 | The whole call is the composition of its protocol steps; on success the returned slot holds the block and one more pin is held, otherwise pins are unchanged. |
| PageCache.PagePool.MarkPageDirty | Cact/drivers/block/pagecache/pagecache.c:277-284 | The whole call is the composition of its steps: pin, write through, unpin. |
| PageCache.PagePool.ReleasePage | Cact/drivers/block/pagecache/pagecache.c:287-299 | A put takes one pin off a cached block that has one, whosever it is, and leaves others alone; if the pin may be a client's, it is the protocol's put. |
| PageCache.PagePool.Flush | Cact/drivers/block/pagecache/pagecache.c:302-313 | The scan over the pool, with its lock dropped for each writeback, is the composition of its steps. |
| PageCache.PagePool.Invalidate | Cact/drivers/block/pagecache/pagecache.c:318-336 | An unpinned cached block is removed; its writeback branch is never taken. |
| PageCache.PagePool.InvalidateAll | Cact/drivers/block/pagecache/pagecache.c:340-360 | Flush, then removal of every unpinned page of the device. |
| PageCache.InvalidateRemoves | Cact/drivers/block/pagecache/pagecache.c:318-336 | A complete invalidation of a block removes it without touching the disk, unless it is pinned; then nothing changes. |
| PageCache.InvalidateDevSweeps | Cact/drivers/block/pagecache/pagecache.c:340-360 | A complete invalidation of a device leaves none of its unpinned pages. |
| XxHash.Absorb | Cact/drivers/zstd/xxhash.c:205-269 | The stripes of a concatenation are those of the first part, then those of its left-over bytes followed by the second part; the left-over likewise. |
| XxHash.OneShot | Cact/drivers/zstd/xxhash.c:121-185 | The one-shot loops compute the hash of the byte string. |
| XxHash.StripeLoop | Cact/drivers/zstd/xxhash.c:134-143 | The four-lane loop consumes exactly the whole 32-byte stripes and stops at the rest. |
| XxHash.TailMix | Cact/drivers/zstd/xxhash.c:158-176 | The 8-byte loop, 4-byte step and byte loop fold the whole tail. |
| XxHash.Hasher.constructor | Cact/drivers/zstd/xxhash.c:191-202 | A reset hasher has been fed nothing. |
| XxHash.Hasher.Update | Cact/drivers/zstd/xxhash.c:205-269 | The accumulators hold the whole stripes and the carry buffer the rest of everything fed so far; a null input is refused and changes nothing. |
| XxHash.Hasher.Digest | Cact/drivers/zstd/xxhash.c:272-324 | The digest is the hash of everything fed, as long as the 64-bit length tells whether there was a whole stripe; else the hash with the third lane for the seed. |
| XxHash.Streamed | Cact/drivers/zstd/xxhash.c:191-324 | For every way of cutting a string into chunks, reset, updates and digest give the hash of the whole string, likewise. |
| SpinMutex.Exclusion | Cact/crypto/cact_shim/src/sync.rs:163-213 | For any number of threads and any schedule, at most one thread is between its CAS and its unlock, and then the word is set. |
| SpinMutex.FlagsRestored | Cact/crypto/cact_shim/src/sync.rs:163-213 | A thread that locks and unlocks ends with the interrupt flags it had, whatever others do meanwhile. |
| SpinMutex.Solo | Cact/crypto/cact_shim/src/sync.rs:163-213 | A thread alone with a free lock holds it after three steps, and six steps are a whole lock and unlock that leave flags and word as before. |
| SpinRwLock.StepKeepsInv | Cact/crypto/cact_shim/src/sync.rs:254-355 | Every load, compare-exchange, fetch_sub and store keeps: one writer, no reader and the word WRITE_BIT, or no writer and the word the reader count. |
| SpinRwLock.Exclusion | Cact/crypto/cact_shim/src/sync.rs:254-355 | For any number of threads and any schedule a writer excludes every other thread. |
| SpinRwLock.WordMeaning | Cact/crypto/cact_shim/src/sync.rs:254-355 | The word is the reader count when no writer is inside; it is WRITE_BIT exactly while a writer is inside if and only if fewer than 2^31 threads read at once. |
| SpinRwLock.FewThreads | Cact/crypto/cact_shim/src/sync.rs:254-355 | With fewer than 2^31 threads the word is WRITE_BIT exactly while a writer holds the lock, and otherwise the number of readers. |
| SpinRwLock.WriterFlagsRestored | Cact/crypto/cact_shim/src/sync.rs:278-355 | A writer gets back the interrupt flags it saved itself. |
| SpinRwLock.ReaderFlagsIff | Cact/crypto/cact_shim/src/sync.rs:254-322 | A reader that has stored its flags gets them back, over any schedule, if and only if no other reader stored the cell before it loads it, or the last that did had the same flags. |
| SpinRwLock.ReadersMix | Cact/crypto/cact_shim/src/sync.rs:254-322 | Two readers that overlap: the first leaves with the second's flags. |
| SpinRwLock.RestoredIff | Cact/crypto/cact_shim/src/sync.rs:254-322 | Every read in every schedule ends with the flags it began with, if and only if there is no second thread. |
| SpinRwLock.SoloRead | Cact/crypto/cact_shim/src/sync.rs:254-276 | Alone and with no writer inside, a thread joins the readers in four steps and the count goes up by one. |
| SpinRwLock.SoloReadEnd | Cact/crypto/cact_shim/src/sync.rs:311-322 | A reader that leaves takes one off the count. |
| SpinRwLock.SoloWrite | Cact/crypto/cact_shim/src/sync.rs:278-355 | Alone with a free lock, a writer takes it in three steps and leaves it free in three. |
| MessageQueue.InsertOrdered | Cact/fs/mqueue/mqueue.c:179-184 | Insertion keeps the list in non-increasing priority order. |
| MessageQueue.InsertLast | Cact/fs/mqueue/mqueue.c:179-184 | Within its own priority the new message goes last; other priorities are unchanged. |
| MessageQueue.EnqueueKeeps | Cact/fs/mqueue/mqueue.c:395-416 | Enqueueing keeps the queue's order and limits, extends its per-priority history, and adds the message's size. |
| MessageQueue.DequeueKeeps | Cact/fs/mqueue/mqueue.c:186-194 | Dequeueing keeps them and moves the head from waiting to received. |
| MessageQueue.ReceiveTakesBest | Cact/fs/mqueue/mqueue.c:423-452 | The head has the highest priority waiting and is the first message of that priority sent and not yet received. |
| MessageQueue.Budget.Reserve | Cact/fs/mqueue/mqueue.c:144-150 | A reservation is granted if and only if the sum fits; a refused one leaves the word as it was. |
| MessageQueue.AddSub | Cact/fs/mqueue/mqueue.c:144-154 | What was reserved, given back, leaves the word as it was, whether or not it wrapped. |
| MessageQueue.FitsIff | Cact/fs/mqueue/mqueue.c:358-452 | Over every history of sends, receives and settings of the limits: some receive, in it or after it when the queue is then emptied, is given more than the least buffer it had to offer, if and only if the limits were set while a longer message waited. |
| MessageQueue.LongMessageWaits | Cact/fs/mqueue/mqueue.c:358-452 | The other case: a full-size message waits, the limits are set to one byte, and a one-byte receiver gets the message. |
| MessageQueue.MQueue.constructor | Cact/fs/mqueue/mqueue.c:259-287 | A new queue has the default limits and satisfies the queue invariant. |
| MessageQueue.MQueue.Enqueue | Cact/fs/mqueue/mqueue.c:179-184 | The walk past every message of at least the same priority, and the insertion there, is the specified insertion. |
| MessageQueue.MQueue.Dequeue | Cact/fs/mqueue/mqueue.c:186-194 | The head is taken off and counted off. |
| MessageQueue.MQueue.Send | Cact/fs/mqueue/mqueue.c:377-421 | The result code in the order of the checks; a failed send changes neither queue nor budget, a successful one takes exactly its size and hands over the pending registration if the queue was empty. |
| MessageQueue.MQueue.Receive | Cact/fs/mqueue/mqueue.c:423-452 | The head message and its bytes go back also when the copy to user memory fails; other failures change nothing; the message fits the receiver's buffer if every waiting message is within msgsize. |
| MessageQueue.MQueue.Init | Cact/fs/mqueue/mqueue.c:358-375 | The limits are set once and only within bounds. |
| MessageQueue.MQueue.Notify | Cact/fs/mqueue/mqueue.c:485-510 | Cancel, refuse, signal at once, or register, keeping the queue invariant. |
| MessageQueue.MQueue.FreeAll | Cact/fs/mqueue/mqueue.c:196-205 | Freeing a queue gives back exactly the bytes of its messages. |
| MessageQueues.StepKeepsInv | Cact/fs/mqueue/mqueue.c:144-510 | Every atomic step of every thread keeps queue order and history, link and open references, one operation per queue, the budget equation modulo 2^32, and registrations; only a send that the wrapped word grants adds live bytes. |
| MessageQueues.Reachable | Cact/fs/mqueue/mqueue.c:144-510 | So every reachable state satisfies them, with any number of threads. |
| MessageQueues.BudgetConserved | Cact/fs/mqueue/mqueue.c:144-175 | With any number of threads the budget word is, modulo 2^32, the bytes of live messages and grants plus refused reservations not yet rolled back; with all threads idle it is the bytes queued, and zero when no queue is left. |
| MessageQueueBudget.BudgetIff | Cact/fs/mqueue/mqueue.c:144-175 | The word is exact and live bytes stay within the limit over every run, if and only if there are at most 523009 threads. |
| MessageQueueBudget.GrantOverLimit | Cact/fs/mqueue/mqueue.c:144-175 | With one thread more there is a run in which the word wraps to 1048 and a message is granted on top of a full budget. |
| MessageQueueBudget.FewThreads | Cact/fs/mqueue/mqueue.c:144-175 | Within that number the word is exact, live bytes never exceed the limit, and with all threads idle the word is the bytes queued. |
| MessageQueues.ReceiveInOrder | Cact/fs/mqueue/mqueue.c:179-194 | In every reachable state curmsgs is the queue length and the next receive takes the oldest message of the highest priority present. |
| MessageQueues.SignalledOnce | Cact/fs/mqueue/mqueue.c:404-414 | In every reachable state a pending registration implies an empty queue, no registration is signalled twice, and none that is pending or cancelled was signalled. |
| MessageQueues.SignalOnFirstSend | Cact/fs/mqueue/mqueue.c:404-414 | A pending registration is signalled by exactly the step that puts the first message into its queue. |
| MessageQueues.LastReference | Cact/fs/mqueue/mqueue.c:289-321 | A queue dies exactly with its last reference, by unlink with nothing open or by the last close of an unlinked queue, and its messages pass to the thread that frees them. |
| MessageQueues.CreateIff | Cact/fs/mqueue/mqueue.c:209-287 | Creating a name makes an empty, linked, unopened queue under the name's first 127 characters, unless that very name is linked; then nothing changes. It is found under the name again if and only if the name has at most 127. |
| MessageQueues.NamesIff | Cact/fs/mqueue/mqueue.c:209-287 | Over every run, linked names stay distinct if and only if no longer name is created while its first 127 characters are linked. |
| MessageQueues.SendReceive | Cact/fs/mqueue/mqueue.c:377-452 | A send that fits is delivered and takes exactly its size; receiving it from an otherwise empty queue gives it back. |
| Cctkfs.AlignUp | tools/cact_sign_cctkfs.py:26-27 | The smallest multiple of 16 at or above the value. |
| Cctkfs.PackAllAt | tools/cact_sign_cctkfs.py:121-133 | Each little-endian word packed into a header or entry reads back. |
| Cctkfs.ParseImage | tools/cact_sign_cctkfs.py:50-79 | What the writer lays out, the writer's own reader reads back: names, entry fields and payloads. |
| Cctkfs.PayloadsDisjoint | tools/cact_sign_cctkfs.py:126-142 | Payloads start on 16-byte boundaries behind the names and do not overlap. |
| CctkfsRepack.RepackTwice | tools/cact_sign_cctkfs.py:84-147 | Repacking the repacked archive, with any signer, changes nothing. |
| CctkfsRepack.RepackKeeps | tools/cact_sign_cctkfs.py:84-147 | Names, flags and order survive repacking, and each payload is the original one, signed if it is a module. |
| CctkfsRepack.PadOut | tools/cact_sign_cctkfs.py:135-142 | The padding loop appends zeros up to the next boundary. |
| CctkfsRepack.ReadAndSign | tools/cact_sign_cctkfs.py:59-119 | The reading and signing loops produce the entries and the signed payloads of a well-formed archive. |
| CctkfsRepack.WriteTable | tools/cact_sign_cctkfs.py:126-133 | The table loop writes every entry at its offset, or fails when an offset needs more than 32 bits. |
| CctkfsRepack.SetChecksum | tools/cact_sign_cctkfs.py:30-33 | The checksum field becomes the CRC of the image with that field zero. |
| CctkfsRepack.WriteImage | tools/cact_sign_cctkfs.py:121-147 | The rebuild yields the image of the archive, or nothing if it does not fit 32-bit offsets. |
| CctkfsRepack.Repack | tools/cact_sign_cctkfs.py:36-147 | An unreadable file is refused; a well-formed one becomes its repacked image. |
| CctkfsRepack.SignModuleCurrent | tools/modsign.py:106-147 | A freshly signed module is current for its vermagic. |
| CctkfsRepack.SignedTwice | tools/modsign.py:106-154 | Signing a signed module again, with any signer, changes nothing. |
| InitfsReader.ValidateIff | Cact/drivers/initfs/initfs_modblob.c:110-137 | The wrapping 32-bit checks accept exactly the images whose table and name blob lie in order inside the image and whose checksum is absent or right. |
| InitfsReader.ImageAccepted | Cact/drivers/initfs/initfs_modblob.c:110-137 | The reader accepts every image the writer lays out. |
| InitfsReader.AtImage | Cact/drivers/initfs/initfs_modblob.c:243-258 | Entry i of a written image has its stored name and payload. |
| InitfsReader.AtIff | Cact/drivers/initfs/initfs_modblob.c:243-258 | An entry is served if and only if its payload lies in the image and its name in the name blob, counted without wrapping. |
| InitfsReader.PathReadsBack | Cact/drivers/initfs/initfs_modblob.c:243-258 | The path pointer of entry i is the C string of its name, when the name is terminated. |
| InitfsReader.GetImage | Cact/drivers/initfs/initfs_modblob.c:201-237 | Looking up the name of an entry of a written image serves the first entry of that name. |
| InitfsReader.ValidIsWellFormed | Cact/drivers/initfs/initfs_modblob.c:110-137 | Every archive the reader accepts entry by entry is well formed for the writer. |
| InitfsReader.RepackRoundTrip | Cact/drivers/initfs/initfs_modblob.c:201-258 | Repacking any valid archive gives a valid archive with disjoint 16-byte-aligned payloads in which entry i has its original name and its payload, signed if it is a module. |
| InitfsReader.ModBlob.ImageCrc | Cact/drivers/initfs/initfs_modblob.c:82-91 | The loop computes the CRC of the image with the checksum field taken as zero. |
| InitfsReader.ModBlob.ValidateHeader | Cact/drivers/initfs/initfs_modblob.c:110-137 | The header checks, in order, with the code of the first that fails. |
| InitfsReader.ModBlob.Load | Cact/drivers/initfs/initfs_modblob.c:139-170 | An accepted image is ready and is the staged bytes; a missing, empty or oversized one changes nothing; a refused header leaves the object valid if and only if no image was ready before. |
| InitfsReader.ModBlob.NameEq | Cact/drivers/initfs/initfs_modblob.c:172-179 | A C string equals a slice of the name blob. |
| InitfsReader.ModBlob.BasenameAt | Cact/drivers/initfs/initfs_modblob.c:185-199 | The loop finds what follows the last slash. |
| InitfsReader.ModBlob.Get | Cact/drivers/initfs/initfs_modblob.c:201-237 | The first entry with the path, else the first with the same last component; a bad payload range is refused. |
| InitfsReader.ModBlob.At | Cact/drivers/initfs/initfs_modblob.c:243-258 | Entry idx if its ranges are good, else nothing. |
| TreeIndex.FaithfulIff | Cact/fs/vfs/cctkfs_tree.c:97-204 | For paths with non-empty components of at most 127 bytes: every walk finds a file exactly when a non-excluded entry has that path, with the first such entry's data, if and only if no non-excluded path is a proper prefix of another. |
| TreeIndex.BuildKinds | Cact/fs/vfs/cctkfs_tree.c:149-204 | Under prefix-freedom every path resolves to a file, a directory or nothing exactly as the flat list says. |
| TreeIndex.InsertKind | Cact/fs/vfs/cctkfs_tree.c:149-180 | One insertion adds the missing directories on the way and the file, and changes no other walk. |
| TreeIndex.AddChildResolve | Cact/fs/vfs/cctkfs_tree.c:97-126 | A new child changes no walk that succeeds and makes exactly one more succeed. |
| TreeIndex.CountIsDistinct | Cact/fs/vfs/cctkfs_tree.c:236-250 | The recursive count meets each file once: it is the number of distinct non-excluded paths. |
| CctkfsTree.Synth.Find | Cact/fs/vfs/cctkfs_tree.c:105-110 | The sibling walk returns the first child with this name. |
| CctkfsTree.Synth.Append | Cact/fs/vfs/cctkfs_tree.c:97-126 | A new node becomes the last sibling; all other links stay. |
| CctkfsTree.Synth.Insert | Cact/fs/vfs/cctkfs_tree.c:149-180 | The loop over the path's components is the specified insertion. |
| CctkfsTree.Synth.Build | Cact/fs/vfs/cctkfs_tree.c:182-204 | Every offered path below the prefix is inserted in archive order, once. |
| CctkfsTree.Synth.Walk | Cact/fs/vfs/cctkfs_tree.c:49-71 | Walking component by component resolves the path, through directories only. |
| CctkfsTree.Synth.CountFiles | Cact/fs/vfs/cctkfs_tree.c:236-245 | The recursion over siblings and directories is the specified count. |
| ElfLoader.MemoryIs | Cact/kernel/elf/elf_loader.c:224-305 | A page is mapped exactly when a loaded segment covers it, and holds the content of the last such segment. |
| ElfLoader.ByteImage | Cact/kernel/elf/elf_loader.c:224-308 | With page-disjoint segments and complete reads each byte of a mapped page is the file byte where the segment is file-backed and zero elsewhere. |
| ElfLoader.PagesInUserSpace | Cact/kernel/elf/elf_loader.c:32-38 | Every mapped page lies in [PAGE_SIZE, RESERVED_END) or [USER_FRAME_CEIL, USER_STACK_TOP). |
| ElfLoader.SegOkIff | Cact/kernel/elf/elf_loader.c:32-38 | The segment check accepts exactly the ranges inside one of the two user windows. |
| ElfLoader.BrkAbovePages | Cact/kernel/elf/elf_loader.c:386-413 | The break starts at or above the end of every mapped page. |
| ElfLoader.ReadInto | Cact/kernel/elf/elf_loader.c:273-283 | A read copies the bytes the file has and reports their number. |
| ElfLoader.FillPage | Cact/kernel/elf/elf_loader.c:252-303 | One page: zeroed, then the part of the file that falls into it; a read that yields nothing fails. |
| ElfLoader.LoadSegment | Cact/kernel/elf/elf_loader.c:251-305 | All pages of the segment, if every read works and frames last. |
| ElfLoader.LoadElf | Cact/kernel/elf/elf_loader.c:165-309 | Loading succeeds if and only if the header is sound, every loaded segment is allowed and readable, and there are frames enough; then the memory is that of the segments in order. |
| ElfLoader.BrkStart | Cact/kernel/elf/elf_loader.c:386-413 | The page-rounded highest end of the acceptable PT_LOAD segments, or 0 for a bad header. |
| Rtc.DaysFromCivilCorrect | Cact/drivers/timer/rtc.c:73-82 | For every year, also negative, and every month, the closed form is the day count by the leap-year rule. |
| Rtc.NextDayIsNext | Cact/drivers/timer/rtc.c:73-82 | Zero at 1970-01-01 and exactly one more for the next calendar day, over month, year, century and 400-year boundaries. |
| Rtc.DecodeRegisters | Cact/drivers/timer/rtc.c:67-126 | In BCD or binary, 12- or 24-hour mode, decoding what a clock chip shows gives back the time. |
| Rtc.DecodedOrder | Cact/drivers/timer/rtc.c:85-126 | A reading of a real date has a smaller epoch than every later accepted reading. |
| Rtc.NotInOrder | Cact/drivers/timer/rtc.c:119-121 | 31 February is accepted and is not before 1 March. |
| Rtc.OrderIff | Cact/drivers/timer/rtc.c:119-125 | A reading comes before every later one if and only if its day exists in its month. |
| TimerFd.SweepIsTicked | Cact/fs/timerfd/timerfd.c:71-93 | A sweep does at once what a timer driven by every tick did, up to the guard's number of expirations. |
| TimerFd.GuardIff | Cact/fs/timerfd/timerfd.c:77-93 | A periodic sweep agrees with the eager timer if and only if it meets at most 100000 expirations. |
| TimerFd.LazyIsEager | Cact/fs/timerfd/timerfd.c:71-119 | Whatever the times of polls and reads, values read plus the pending count are the eager count, and the stored deadline is the eager one. |
| TimerFd.EagerCounts | Cact/fs/timerfd/timerfd.c:71-93 | The eager count is the number of deadlines first, first+interval, ... at or before now; the next deadline is the first after now. |
| TimerFd.RelativeTimer | Cact/fs/timerfd/timerfd.c:151-180 | After a relative arming the lazy timer reports exactly the deadlines armed tick + value + k * interval. |
| TimerFd.AbsoluteTimer | Cact/fs/timerfd/timerfd.c:151-180 | After an absolute arming for a later tick it reports exactly the deadlines value + k * interval, whenever it was armed. |
| TimerFd.RestoreIff | Cact/fs/timerfd/timerfd.c:197-211 | Setting a pending timer back to the old value that was reported restores its deadline if and only if the milliseconds, rounded up, fit 32 bits. |
| TimerFd.PastDeadlineFires | Cact/fs/timerfd/timerfd.c:169-174 | An absolute deadline that has passed expires at the next look, unless it is set at tick 1. |
| TimerFd.TicksIff | Cact/fs/timerfd/timerfd.c:153-162 | Milliseconds are rounded up to ticks if and only if the 32-bit sum does not wrap. |
| TimerFd.Timer.SweepNow | Cact/fs/timerfd/timerfd.c:77-93 | The loop is the specified sweep. |
| TimerFd.Timer.ReadCount | Cact/fs/timerfd/timerfd.c:95-119 | A read sweeps, then takes the pending count or reports that there is none. |
| TimerFd.Timer.SetTime | Cact/fs/timerfd/timerfd.c:197-211 | Arming sets deadline, interval and count, and reports the old remaining time and interval. |
| Tty.EditorFaithful | Cact/drivers/tty/tty.c:168-306 | For every session of keystrokes and reads, what readers took and what is queued is what was left of each finished line, read backwards from its end with erases, word erases and kills cancelling what they reach, if and only if the ring had room whenever a key committed something. |
| Tty.LeftIs | Cact/drivers/tty/tty.c:278-306 | Reading a history of keystrokes backwards, with any erasers still to come, gives the line that the driver keeps key by key. |
| Tty.LineFaithful | Cact/drivers/tty/tty.c:211-306 | The line and the pending end of file are those of the history, whatever the ring has room for. |
| Tty.PushAllIs | Cact/drivers/tty/tty.c:168-185 | Exactly the bytes for which there is room are queued. |
| Tty.CommitFits | Cact/drivers/tty/tty.c:91-101 | A commit into an empty ring always fits. |
| Tty.WordEraseIs | Cact/drivers/tty/tty.c:197-209 | Word erase removes trailing blanks and then one word. |
| Tty.EraseUndoes | Cact/drivers/tty/tty.c:278-284 | Erase undoes a typed character if and only if the line had room for it. |
| Tty.ReadTakesLine | Cact/drivers/tty/tty.c:416-464 | A canonical read with a large enough buffer takes exactly the first queued line. |
| Tty.RecentOfRecent | Cact/drivers/tty/tty.c:310-327 | Appending piece by piece keeps the last 4096 bytes of everything written. |
| Tty.Vt.Push | Cact/drivers/tty/tty.c:168-175 | A byte is queued at the end of the ring, or dropped when the ring is full. |
| Tty.Vt.Commit | Cact/drivers/tty/tty.c:179-185 | The line, and a newline if asked for, is queued byte by byte and cleared. |
| Tty.Vt.WordEraseLine | Cact/drivers/tty/tty.c:197-209 | The two loops are the specified word erase. |
| Tty.Vt.EditKey | Cact/drivers/tty/tty.c:278-306 | The editing keys do to the line what the specification says. |
| Tty.Vt.TtyInput | Cact/drivers/tty/tty.c:211-306 | One keystroke does to line, ring and EOF flag what the specification says. |
| Tty.Vt.TtyRead | Cact/drivers/tty/tty.c:416-464 | Bytes are taken from the front up to a newline, the size or the end of the ring; EOF is reported exactly when it is pending and the read drains the queue short of its size, with nothing in hand or with a canonical line unfinished; the read is that many bytes, and the EOF, taken in a session. |
| Tty.Scrollback.Append | Cact/drivers/tty/tty.c:310-327 | The scrollback becomes the most recent 4096 bytes. |
| KLog.LogIs | Cact/kernel/core/klog.c:95-256 | After any calls, feeds at any levels mixed with reads, the records are exactly the non-empty lines of all the text together, stripped of escape sequences and control characters and split at newlines and reads: numbered in order, each with its first 512 characters and the level of its first; what follows the last split is pending. |
| KLog.FeedAnyPieces | Cact/kernel/core/klog.c:95-154 | Text fed whole under one clock and in any pieces under another gives the same log, record for record, but for the times of the records. |
| KLog.ReadBetweenIff | Cact/kernel/core/klog.c:85-154 | A read between two pieces leaves the log as it would have been, but for times, if and only if no line was pending or the first character logged after it ends the line. |
| KLog.NoTruncWhenEmpty | Cact/kernel/core/klog.c:85-154 | Feeding keeps the pending line within its buffer and cuts nothing off an empty line. |
| KLog.EscapeStripped | Cact/kernel/core/klog.c:101-134 | A complete control sequence leaves no trace in the log. |
| KLog.LineFits | Cact/kernel/core/klog.c:59-82 | A whole line always fits its record: it is stored complete, after its prefix and before a newline. |
| KLog.ByteRing.Push | Cact/kernel/core/klog.c:47-56 | One byte more; the oldest goes when the ring is full; wrapped indices stay right. |
| KLog.ByteRing.Append | Cact/kernel/core/klog.c:47-56 | The ring holds exactly the last min(total, 2^17) bytes ever appended. |
| KLog.ByteRing.Copy | Cact/kernel/core/klog.c:244-254 | The copy loop returns the slice of the retained bytes across physical and index wrap. |
| KLog.KernelLog.FlushLine | Cact/kernel/core/klog.c:85-93 | A pending line becomes one record. |
| KLog.KernelLog.FeedText | Cact/kernel/core/klog.c:95-154 | The character loop is the specified feed. |
| KLog.KernelLog.ReadAt | Cact/kernel/core/klog.c:227-256 | The pending line is flushed and exactly the slice at that offset is returned. |

## Left out

- The scheduler, memory manager, VFS core, network stack and graphics: they are not in the C, Rust and Python sources modelled here.
- Device drivers that talk to hardware registers (ACPI, APIC, PCI, USB, serial): the hardware decides the outcome.
- BlkDev.BlockLayer.Read: a driver callback is the disk's map of sectors and does not fail on its own; identity strings, the probe hook and dumps are left out.
- BlkDev.BlockLayer.Write: likewise.
- BlkDev.BlockLayer.RegisterDisk: the partition probe hook called at the end is left out.
- BlkDev.BlockLayer.AddPart: what a name that overruns its buffer overwrites is not modelled; the name is compared as it was written.
- MessageQueues.LastReference: reference counts are not wrapped at 2^32, and a descriptor is not closed while an operation on it is in progress.
- MessageQueue.MQueue.Send: one attempt on a non-blocking descriptor; waiting, timeouts and signals are left out.
- MessageQueue.MQueue.Receive: one attempt on a non-blocking descriptor, likewise.
- PageCacheTransparency.Transparent: complete calls of one thread; with several threads the invariants of every interleaving are proved, but not the contents of racing reads and writes of one block.
- PageCacheSteps.StepKeepsBase: clients release and write only what they have pinned; the write of a page's sectors is one step.
- PageCacheProtocol.ViewsAgree: up to a second removal or the store of outdated flags, which both take a race; what the links are after that is not described.
- PageCacheProtocol.NothingForgotten: likewise.
- PageCacheMarks.ContentsDurableIff: that the contents were written; another page's block that aliases the same sectors may be written over them.
- PageCache.PagePool.GetPage: other threads stand still during the call, and none of them between the two stores of a lost slot; kernel allocation is a parameter; statistics counters are left out.
- PageCache.PagePool.Lookup: likewise.
- XxHash.Streamed: chunks leave 32 bytes of the 32-bit address space, which also holds the hasher, so that the sum with the carried bytes does not wrap.
- XxHash.Hasher.Update: likewise.
- XxHash.Hasher.Digest: the arithmetic inside the rounds is written out but nothing is claimed about it.
- SpinRwLock.WordMeaning: Once and OnceLock are left out.
- CctkfsRepack.Repack: an archive whose name blob or names leave the file is read but its output is not specified; key generation and the ECDSA signature are a parameter.
- CctkfsTree.Synth.Insert: node allocation always succeeds.
- CctkfsTree.Synth.CountFiles: only files are counted, not directories.
- ElfLoader.LoadSegment: free frames are the number of pages that can be allocated and tracked.
- ElfLoader.LoadElf: likewise, and the file is its bytes; relocation, the interpreter hand-off and the copy of the program headers are left out.
- Rtc.DaysFromCivilCorrect: years are unbounded integers, not 64-bit. Reading the CMOS ports, the tick anchor and setting the clock are left out.
- TimerFd.Timer.ReadCount: a non-blocking read; the blocking loop is left out. The expiration count is not wrapped at 2^64.
- TimerFd.LazyIsEager: for looks less than 2^31 ticks apart and deadlines below 2^32, which is when 32-bit tick comparison is sound.
- Tty.Vt.TtyInput: echo and the delivery of the signals themselves are left out.
- Tty.Vt.TtyRead: up to the point where the reader would sleep; waiting and EINTR are left out.
- KLog.KernelLog.FeedText: records written by user space and the console level are left out.
- Partition-table parsing, console rendering, eventfd, signalfd, memfd, keyboard and mouse rings: they would only add easier members.
