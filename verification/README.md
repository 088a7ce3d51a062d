# A model of the IoT Board firmware's shared-memory code

The IoT Board firmware runs applications on the RT-Thread kernel. This project models, in Dafny, the parts of that
firmware where many callers share state, and the text processing of its packages, and proves what they promise:

* **Blocking objects** (`ipc.c`, `mempool.c`): semaphores, recursive mutexes with priority inheritance, event sets,
  mailboxes, message queues and memory pools. A region between `rt_hw_interrupt_disable` and `rt_hw_interrupt_enable` is
  one step. For every object there are a class whose methods are those regions, and a machine whose runs are all
  interleavings of any number of threads, timeouts and resets. Semaphores, mutexes and events use the same functions for
  both; for mailboxes, message queues and memory pools the code is run along the machine. Message queues copy with
  interrupts enabled, so there every byte of a copy is a step of its own.
* **Two allocators** (`mem.c`, `memheap.c`): first fit over in-band headers with a lowest-free hint, and two intrusive
  rings that must agree. Both are classes over the byte array that holds headers and items as well as payloads, with
  `malloc`, `free` and `realloc` proved against functions on the sequence of blocks. The words are also kept in maps,
  which the code reads; the invariant is that memory holds the same words.
* **cJSON**: the parser and both printers as functions on texts with the theorems about them, the grammar of RFC 8259
  among these, and as the loops over positions, arrays and growing buffers that the code consists of, proved against the
  functions.
* **optparse**: one call, which recurses over operands and permutes `argv`, and whole command lines.
* **FlexibleButton**: keys that turn sampled levels into events, and their event streams over all runs.

The environment is a parameter: who calls when, which threads time out, what the keys' read functions return, and, for
the allocators, the requests. Resuming a thread unlinks it and stops its timer; a timeout unlinks it and sets its error.

## How to read it

| files | what they hold |
|---|---|
| `Prelude` | options, bytes, sequences without repetitions |
| `WaitList` | the sleep and wake protocol that mailboxes, message queues and memory pools share |
| `MessagePool`, `MessageProtocol`, `MessageReplay`, `MessageRefinement` | message queues: pointers, interleavings, the code run along them, refinement of a deque |
| `Mailbox`, `MemPool` | mailboxes and memory pools |
| `Rings`, `IpcList` | the list operations and the order of wait lists |
| `Semaphore`, `Mutex`, `MutexProtocol`, `Events`, `EventProtocol` | objects that hand over directly |
| `HeapBlocks`, `SmallHeap`, `HeapLaws` | `mem.c` |
| `PoolLayout`, `PoolItems`, `MemHeap`, `MemHeapLaws` | `memheap.c` |
| `JsonText`, `JsonUnicode`, `JsonParse`, `JsonRoundTrip`, `JsonLiterals` | JSON trees and texts: functions and theorems |
| `JsonMeaning`, `JsonNumerals`, `JsonGrammar`, `JsonConforms` | the grammar of RFC 8259 and what literals, numbers and texts mean, against parser and printer |
| `JsonLayout`, `JsonPieces` | lines and indentation of printed text; comments in texts that are minified |
| `JsonStrings`, `JsonBuffer`, `JsonJoin`, `JsonParser`, `JsonMinify` | the loops of cJSON |
| `Optparse`, `OptparseLaws`, `OptparseWords` | optparse: calls, partition, and what a command line means |
| `FlexibleButton`, `ButtonLaws` | FlexibleButton |

`dafny verify dfyconfig.toml` checks everything.

## What does not hold

Some expectations fail; each has a lemma with a concrete case and one that says exactly when it holds.

* A request for the last free bytes of either heap is refused even if they are there (`HeapLaws.RefusedIff`,
  `MemHeapLaws.RefusedIff`): the search of `rt_malloc` stops short of the last offset at which such a block can start,
  and `rt_memheap_alloc` asks for more available bytes than it takes.
* After `rt_realloc` has shrunk a block in place, `lfree` may lie above free memory, which later requests miss
  (`HeapLaws.ShrinkKeepsLowestIff`, `HeapLaws.RunLowestIff`, `HeapLaws.ShrunkTailMissed`).
* A mutex with a first-come list can be handed to a thread that is less urgent than one that still waits
  (`MutexProtocol.HandOffUrgentIff`, `MutexProtocol.RunUrgentIff`, `MutexProtocol.FifoInversion`). After a waiter has
  timed out, the owner keeps the priority that it inherited from it (`MutexProtocol.RunJustifiedIff`, `MutexProtocol.StaleBoost`).
* A string literal with an escaped zero, or with a surrogate escape that lacks its other half, is read without it, and a
  high surrogate takes a \u escape behind it along (`JsonMeaning.StringMeansIff`, `JsonMeaning.LoneSurrogate`).
* Some texts that RFC 8259 does not allow are parsed: numbers as "-", "01" or "1e", literals with other escapes or without
  a closing quote at the end, other control characters as white space (`JsonGrammar.ValueIff`, `JsonNumerals.NumberIff`).
* A block comment that begins with a slash is taken to end there; every other one is removed (`JsonPieces.EarlyEnd`,
  `JsonPieces.TextMinified`).
* A press may be closed by an event that does not match its last start event, around each threshold and after 65536
  scans (`ButtonLaws.ClosedAsStartedIff`, `ButtonLaws.ClosedUnlikeStarted`). A second press that begins in the scan which
  closes the first one is lost, however long the key is then held (`ButtonLaws.SecondPressUnheardIff`,
  `ButtonLaws.UnheardIsLost`, `ButtonLaws.LostPress`). A seventeenth key can be registered and is never heard
  (`ButtonLaws.KeyHeardIff`, `ButtonLaws.SeventeenthKey`).

## Model

Sizes are those of a 32-bit build with `RT_ALIGN_SIZE` 4: 12 bytes per header in `mem.c`, 24 per item in `memheap.c`.

| member | source | states |
|---|---|---|
| MessageRefinement.RefinesDeque | stm32l475-atk-pandora/rt-thread/src/ipc.c:1975-2446 | every interleaving of senders, urgent senders, receivers, timeouts and resets is a run of a deque: a send appends at its link step, an urgent send prepends, a receive removes the head and later returns min(requested size, node size) bytes that agree with the message it removed; at the end the queued nodes carry the deque's messages in order |
| MessageRefinement.StepSim | stm32l475-atk-pandora/rt-thread/src/ipc.c:2079-2106 | the simulation behind it, for one step from any state: no byte that another thread copies meanwhile disturbs a queued message or one that is being read |
| MessageProtocol.NodesStep | stm32l475-atk-pandora/rt-thread/src/ipc.c:1975-2446 | each region under the interrupt lock, each byte of a copy, each timeout and a reset keep every node in exactly one place |
| MessageProtocol.WaitingStep | stm32l475-atk-pandora/rt-thread/src/ipc.c:1975-2446 | they keep the counters equal to the lists, lose no wakeup, and leave each thread in one place |
| MessageProtocol.CopiesStep | stm32l475-atk-pandora/rt-thread/src/ipc.c:2083-2091 | no step of another thread, reset included, disturbs what a sender or a receiver has copied so far |
| MessageReplay.Perform | stm32l475-atk-pandora/rt-thread/src/ipc.c:1975-2446 | the code of one region or one byte, run on a queue whose words represent a state, leaves words that represent the next state; a sender's cleared next word stays NULL until it links its node |
| MessageReplay.Replay | stm32l475-atk-pandora/rt-thread/src/ipc.c:1975-2446 | so along any legal interleaving, from an empty queue on, head, tail, links and entry always represent the lists, and a node that is linked at the tail has a NULL next word then |
| MessageProtocol.RunInv | stm32l475-atk-pandora/rt-thread/src/ipc.c:1975-2446 | so all of this holds after every run |
| MessageProtocol.Conservation | stm32l475-atk-pandora/rt-thread/src/ipc.c:1975-2446 | in every reachable state each of the max_msgs nodes is in exactly one of: queue, free list, hands of one thread; the three numbers add up to max_msgs; the count that receivers test is the queue length |
| MessageProtocol.NoLostWakeups | stm32l475-atk-pandora/rt-thread/src/ipc.c:2003-2068 | in every reachable state a receiver sleeps only if there are at most as many messages as receivers that were resumed and have not run since; the same for senders and free nodes |
| MessageProtocol.OnePlace | stm32l475-atk-pandora/rt-thread/src/ipc.c:2352-2361 | a node that exists is in one place, counting every occurrence on the lists and in hands |
| MessageProtocol.ThreadsMove | stm32l475-atk-pandora/rt-thread/src/ipc.c:1975-2446 | over every run, each step moves exactly the threads that it should and leaves all others where they were, in their order: a link step resumes the first sleeping receiver, a returned node the first sleeping sender; who takes, gives up or is timed out is neither asleep nor resumed then; a reset sends all sleepers on both sides away |
| MessageProtocol.NobodySleepsAfterReset | stm32l475-atk-pandora/rt-thread/src/ipc.c:2407-2414 | in every reachable state after a reset nobody is asleep, as a sender or as a receiver |
| MessageProtocol.ReturnedIsOutside | stm32l475-atk-pandora/rt-thread/src/ipc.c:2281-2331 | over every run, a thread that has returned with an error, resumed or timed out, is in no list and holds no node, and may call again |
| MessageProtocol.NobodyStuck | stm32l475-atk-pandora/rt-thread/src/ipc.c:2003-2080 | in every reachable state a thread that runs takes a message, or a free node, if and only if there is one and goes to sleep if and only if there is none; a resumed one does run; one with a node can go on |
| MessagePool.MessageQueue.constructor | stm32l475-atk-pandora/rt-thread/src/ipc.c:1781-1831 | all nodes are on the free list, the last one first; queue empty, entry 0 |
| MessagePool.MessageQueue.TakeFree | stm32l475-atk-pandora/rt-thread/src/ipc.c:2079-2083 | pops the free list; NULL and nothing changed when it is empty; head, tail, links and entry still represent the lists |
| MessagePool.MessageQueue.StoreByte | stm32l475-atk-pandora/rt-thread/src/ipc.c:2088-2088 | one byte of the copy changes the held node only |
| MessagePool.MessageQueue.ClearLink | stm32l475-atk-pandora/rt-thread/src/ipc.c:2086-2086 | the held node's next word is NULL; lists, entry and the link words of all other held nodes stay |
| MessagePool.MessageQueue.LinkTail | stm32l475-atk-pandora/rt-thread/src/ipc.c:2091-2106 | the held node becomes the last of the queue; tail, head, links and entry agree with that; link words of other held nodes stay |
| MessagePool.MessageQueue.LinkHead | stm32l475-atk-pandora/rt-thread/src/ipc.c:2195-2206 | the held node becomes the first of the queue, and the tail too if it is the only one; link words of other held nodes stay |
| MessagePool.MessageQueue.Unlink | stm32l475-atk-pandora/rt-thread/src/ipc.c:2339-2352 | removes the first node; tail is null exactly if the queue is empty then |
| MessagePool.MessageQueue.GiveBack | stm32l475-atk-pandora/rt-thread/src/ipc.c:2358-2361 | the node goes to the front of the free list; link words of other held nodes stay |
| MessagePool.MessageQueue.Reset | stm32l475-atk-pandora/rt-thread/src/ipc.c:2416-2434 | every queued node moves to the free list, the last queued one ends up first; entry 0; link words of held nodes stay |
| MessagePool.NodesApart | stm32l475-atk-pandora/rt-thread/src/ipc.c:1807-1822 | nodes, each with its link word in front, lie inside the pool and do not overlap, and one more would not fit |
| WaitList.PostKeeps | stm32l475-atk-pandora/rt-thread/src/ipc.c:134-150 | resuming the first sleeper when the counter goes up loses no wakeup |
| WaitList.GrabKeeps | stm32l475-atk-pandora/rt-thread/src/ipc.c:2066-2080 | whether a woken thread or a newcomer takes the unit, the remaining units still have wakers on their way |
| WaitList.SleepKeeps | stm32l475-atk-pandora/rt-thread/src/ipc.c:80-123 | a thread that found nothing may be linked in at any position |
| WaitList.Quiescent | stm32l475-atk-pandora/rt-thread/src/ipc.c:2003-2068 | once every resumed thread has run, sleepers and available units exclude each other |
| WaitList.PostMoves | stm32l475-atk-pandora/rt-thread/src/ipc.c:134-150 | when the counter goes up the first sleeper is resumed, and nobody else is moved |
| Mailbox.Ring.Put | stm32l475-atk-pandora/rt-thread/src/ipc.c:1535-1542 | the mail becomes the last one, wherever the ring wraps |
| Mailbox.Ring.Get | stm32l475-atk-pandora/rt-thread/src/ipc.c:1683-1691 | the oldest mail is returned and leaves the ring, wherever the ring wraps |
| Mailbox.StepInv | stm32l475-atk-pandora/rt-thread/src/ipc.c:1442-1758 | every step keeps: entry counts the mails, free places and mails make up the size, no lost wakeup on either side, mails out then inside are the mails in |
| Mailbox.NoLostWakeups | stm32l475-atk-pandora/rt-thread/src/ipc.c:1442-1714 | over every run: sleepers on either side only while as many threads were resumed as there are mails, or places; when nobody is on the way not both sides sleep |
| Mailbox.FirstInFirstOut | stm32l475-atk-pandora/rt-thread/src/ipc.c:1442-1714 | over every run since a reset: what came out followed by what is inside is what went in |
| Mailbox.ThreadsMove | stm32l475-atk-pandora/rt-thread/src/ipc.c:1442-1758 | over every run each step moves exactly the threads that it should; after a reset nobody sleeps and no mail is left; who returned with an error may call again |
| Mailbox.NobodyStuck | stm32l475-atk-pandora/rt-thread/src/ipc.c:1470-1691 | in every reachable state a thread that runs gets a mail, or room for one, if and only if there is one, and sleeps if and only if there is none |
| Mailbox.Replay | stm32l475-atk-pandora/rt-thread/src/ipc.c:1442-1758 | the code of the ring, run along any interleaving, always holds the mails of the machine; entry is the number that receivers test |
| Mailbox.Perform | stm32l475-atk-pandora/rt-thread/src/ipc.c:1442-1758 | one step of that: a put, a get of the oldest mail, a reset |
| MemPool.BlocksApart | stm32l475-atk-pandora/rt-thread/src/mempool.c:96-121 | blocks with their link words lie inside the pool and do not overlap, and one more would not fit |
| MemPool.Pool.constructor | stm32l475-atk-pandora/rt-thread/src/mempool.c:104-121 | the list runs through all blocks in address order |
| MemPool.Pool.Alloc | stm32l475-atk-pandora/rt-thread/src/mempool.c:371-384 | the block freed last is handed out and marked with its pool; no other link word changes |
| MemPool.Pool.Free | stm32l475-atk-pandora/rt-thread/src/mempool.c:417-423 | the block becomes the first free one; no other link word changes |
| MemPool.StepInv | stm32l475-atk-pandora/rt-thread/src/mempool.c:303-449 | alloc, sleep, timeout and free keep: every block is free or allocated and not both, the count is right, no wakeup is lost |
| MemPool.PoolSafety | stm32l475-atk-pandora/rt-thread/src/mempool.c:303-449 | over every run: no block is handed to two threads or lost, and a thread sleeps only while all free blocks are spoken for |
| MemPool.ThreadsMove | stm32l475-atk-pandora/rt-thread/src/mempool.c:303-449 | over every run each step moves exactly the threads that it should; a thread that runs gets a block if and only if one is free, and sleeps if and only if none is; who fell asleep last is resumed first |
| MemPool.Replay | stm32l475-atk-pandora/rt-thread/src/mempool.c:303-449 | the code of the block list, run along any interleaving, always links the free blocks of the machine |
| MemPool.Perform | stm32l475-atk-pandora/rt-thread/src/mempool.c:303-449 | one step of that: an allocation gets the first free block |
| Rings.Ring.InsertAfter | stm32l475-atk-pandora/rt-thread/include/rtservice.h:58-65 | on a ring of any length: the node follows the given one, all links are again a ring, others keep their order |
| Rings.Ring.InsertBefore | stm32l475-atk-pandora/rt-thread/include/rtservice.h:73-80 | the node precedes the given one, or ends the list that the head starts |
| Rings.Ring.Remove | stm32l475-atk-pandora/rt-thread/include/rtservice.h:86-92 | the node leaves its ring and is a ring of its own; also when it already was |
| Rings.Ring.IsEmpty | stm32l475-atk-pandora/rt-thread/include/rtservice.h:98-101 | true if and only if nothing but the head is on the ring |
| Rings.Ring.Length | stm32l475-atk-pandora/rt-thread/include/rtservice.h:107-120 | counts the nodes of the ring without the head |
| Rings.RemoveUndoesInsert | stm32l475-atk-pandora/rt-thread/include/rtservice.h:58-92 | removing what was just inserted restores the ring |
| IpcList.ListSuspend | stm32l475-atk-pandora/rt-thread/src/ipc.c:80-123 | the loop finds the place that the flag prescribes |
| IpcList.PlaceSplits | stm32l475-atk-pandora/rt-thread/src/ipc.c:90-117 | with RT_IPC_FLAG_PRIO a thread goes behind all that are at least as urgent and before all that are less urgent |
| IpcList.SuspendKeepsOrder | stm32l475-atk-pandora/rt-thread/src/ipc.c:80-123 | the list stays sorted by arrival, or by priority and among equals by arrival |
| IpcList.DropKeepsOrder | stm32l475-atk-pandora/rt-thread/src/ipc.c:134-150 | a thread that is resumed or times out does not disturb the order of the others |
| Semaphore.Semaphore.TakeNow | stm32l475-atk-pandora/rt-thread/src/ipc.c:334-395 | take, refuse or suspend at the place the flag prescribes |
| Semaphore.Semaphore.ReleaseNow | stm32l475-atk-pandora/rt-thread/src/ipc.c:448-462 | the first waiter gets the unit; the value goes up only without waiters |
| Semaphore.StepInv | stm32l475-atk-pandora/rt-thread/src/ipc.c:324-518 | take, release, timeout and reset keep: waiters only at value 0, units conserved, list ordered, first come first served on a first-come list |
| Semaphore.UnitsConserved | stm32l475-atk-pandora/rt-thread/src/ipc.c:324-475 | over every run: value and successful takes are the initial value and the releases |
| Semaphore.NoOvertaking | stm32l475-atk-pandora/rt-thread/src/ipc.c:346-395 | in every reachable state with waiters a newcomer gets nothing, and a release serves the waiter whom the flag puts before all others |
| Semaphore.ServedInOrder | stm32l475-atk-pandora/rt-thread/src/ipc.c:433-475 | over a whole run on a first-come list, waiters are served in the order in which they came |
| Semaphore.TakeOutcome | stm32l475-atk-pandora/rt-thread/src/ipc.c:346-395 | over every run: a take gets a unit if and only if there is one; without one it is refused and nothing changes, or the thread sleeps |
| Semaphore.ReleaseOutcome | stm32l475-atk-pandora/rt-thread/src/ipc.c:448-462 | over every run: a release gives its unit to the first waiter, which sleeps no more, or leaves it there if nobody waits |
| Mutex.Mutex.TakeNow | stm32l475-atk-pandora/rt-thread/src/ipc.c:666-779 | recursive take, first take, refusal, or sleep with the owner raised to the taker's priority |
| Mutex.Mutex.ReleaseNow | stm32l475-atk-pandora/rt-thread/src/ipc.c:817-871 | only the owner releases; the last release restores its priority and hands the mutex to the first waiter or frees it |
| MutexProtocol.StepInv | stm32l475-atk-pandora/rt-thread/src/ipc.c:654-881 | every take, release and timeout of any thread keeps: owner null iff value 1 iff hold 0, hold counts the owner's takes, nobody else is inside, priorities changed only for the owner and only upwards, waiters sorted; on a priority list the owner is at least as urgent as all |
| MutexProtocol.Exclusion | stm32l475-atk-pandora/rt-thread/src/ipc.c:654-881 | over every run at most one thread is inside, it is the owner, and hold is how often it entered |
| MutexProtocol.TakeOutcome | stm32l475-atk-pandora/rt-thread/src/ipc.c:681-762 | over every run: a thread that takes the mutex is inside once more if and only if no other thread is inside; otherwise it is refused and nothing changes, if it may not wait, or it sleeps and the owner is raised to its priority, and nobody else |
| MutexProtocol.ReleaseOutcome | stm32l475-atk-pandora/rt-thread/src/ipc.c:817-871 | over every run: a release counts once if the thread is inside, and changes nothing otherwise; whoever has left has its own priority again, and then the first waiter is inside, once, or nobody |
| MutexProtocol.ExpireOutcome | stm32l475-atk-pandora/rt-thread/src/ipc.c:721-762 | over every run: a waiter that is timed out sleeps no more, nobody else moves, and nobody gets in |
| MutexProtocol.PriorityRestored | stm32l475-atk-pandora/rt-thread/src/ipc.c:828-839 | over every run a thread that is not inside has the priority it started with |
| MutexProtocol.NoInversion | stm32l475-atk-pandora/rt-thread/src/ipc.c:654-872 | over every run with RT_IPC_FLAG_PRIO no waiter is more urgent than the owner, also right after a hand-off |
| MutexProtocol.HandOffUrgentIff | stm32l475-atk-pandora/rt-thread/src/ipc.c:841-861 | for either flag, a hand-off leaves the owner at least as urgent as all waiters if and only if the first waiter was the most urgent |
| MutexProtocol.RunUrgentIff | stm32l475-atk-pandora/rt-thread/src/ipc.c:654-881 | over every run, for either flag, the owner is at all times at least as urgent as all waiters, if and only if each hand-off was to the most urgent waiter |
| MutexProtocol.FifoInversion | stm32l475-atk-pandora/rt-thread/src/ipc.c:841-861 | on a first-come list the hand-off can leave a more urgent waiter: three threads that show it |
| MutexProtocol.ExpireJustifiedIff | stm32l475-atk-pandora/rt-thread/src/ipc.c:721-762 | a timeout leaves the owner's priority its own or that of a thread that still waits, if and only if the owner had not inherited or another waiter has the same priority |
| MutexProtocol.RunJustifiedIff | stm32l475-atk-pandora/rt-thread/src/ipc.c:721-762 | over every run, an inherited priority is at all times that of a thread that still waits, if and only if every timeout was of such a waiter |
| MutexProtocol.StaleBoost | stm32l475-atk-pandora/rt-thread/src/ipc.c:721-762 | after a timeout the owner keeps the priority it inherited from the thread that left: two threads that show it |
| Events.Event.Receive | stm32l475-atk-pandora/rt-thread/src/ipc.c:1150-1232 | deliver and clear at once, refuse, or sleep with the wanted bits and options recorded |
| Events.Event.Send | stm32l475-atk-pandora/rt-thread/src/ipc.c:1049-1098 | the loop over the waiters: the remaining set, who still sleeps, who was resumed in which order and with which bits |
| Events.Event.Reset | stm32l475-atk-pandora/rt-thread/src/ipc.c:1257-1273 | the set is empty and nobody sleeps |
| EventProtocol.BlockedLikeImmediate | stm32l475-atk-pandora/rt-thread/src/ipc.c:1062-1092 | a waiter that a send satisfies gets the bits, and has the bits cleared, that rt_event_recv would have delivered and cleared at that moment |
| EventProtocol.SweepUnmet | stm32l475-atk-pandora/rt-thread/src/ipc.c:1049-1098 | after one send nobody who still sleeps is satisfied by what is left, although bits were cleared between wakeups |
| EventProtocol.SweepAccounts | stm32l475-atk-pandora/rt-thread/src/ipc.c:1084-1092 | each bit of the set is left over or was cleared for exactly one of the resumed threads |
| EventProtocol.StepInv | stm32l475-atk-pandora/rt-thread/src/ipc.c:1029-1273 | send, receive, timeout and reset keep every sleeper unsatisfied |
| EventProtocol.NoSatisfiedSleeper | stm32l475-atk-pandora/rt-thread/src/ipc.c:1029-1238 | in every reachable state a thread that sleeps with AND lacks a bit that it wants, and one with OR alone finds none of its bits in the set |
| EventProtocol.ReceiveOutcome | stm32l475-atk-pandora/rt-thread/src/ipc.c:1150-1232 | a receive gets exactly the wanted bits that are set, and with CLEAR they leave the set, if and only if it lacks nothing, bit by bit; otherwise it fails and nothing changes, or the thread sleeps |
| EventProtocol.SendOutcome | stm32l475-atk-pandora/rt-thread/src/ipc.c:1049-1098 | a send adds its bits, and each waiter in its turn is resumed, with exactly its bits, if and only if it lacks nothing of what those before it have left; it finds these bits in its event_set; every bit is in the set or was cleared |
| SmallHeap.Heap.constructor | stm32l475-atk-pandora/rt-thread/src/mem.c:204-262 | one free block, the sentinel behind it, nothing used |
| SmallHeap.Heap.PlugHoles | stm32l475-atk-pandora/rt-thread/src/mem.c:156-194 | the hole at block i is joined with free neighbours on both sides; no two neighbours are free, no byte is lost, no live payload is written, a hint into a swallowed block moves to the swallowing one |
| SmallHeap.Heap.Malloc | stm32l475-atk-pandora/rt-thread/src/mem.c:272-410 | a non-NULL result is a Take step of the allocator's state: the first block from lfree on, below offset mem_size_aligned - size, that fits, cut if a header and MIN_SIZE fit behind, whole otherwise, with lfree, used_mem and max_mem; the block at the result has room for the request; NULL exactly when there is none, and then nothing changes; no live payload is written |
| SmallHeap.RequestSize | stm32l475-atk-pandora/rt-thread/src/mem.c:282-297 | the size that is searched for is at least the request and MIN_SIZE, aligned, and less than four bytes more than that takes |
| SmallHeap.TakenServes | stm32l475-atk-pandora/rt-thread/src/mem.c:313-378 | a pointer that rt_malloc returns is the payload of a block in use with room for the request, and with less to spare than another header with a minimal payload takes |
| SmallHeap.AllocatedIff | stm32l475-atk-pandora/rt-thread/src/mem.c:313-378 | the block found is cut right behind the bytes requested if and only if a header with a minimal payload is left of it, and the others stay |
| SmallHeap.Heap.FindFit | stm32l475-atk-pandora/rt-thread/src/mem.c:305-311 | the search loop: a first fit or none at all |
| SmallHeap.Heap.AdvanceHint | stm32l475-atk-pandora/rt-thread/src/mem.c:380-387 | lfree moves to the next free block, or to the end, and passes none |
| SmallHeap.Heap.Free | stm32l475-atk-pandora/rt-thread/src/mem.c:546-610 | a Give step: the block becomes free and is joined on both sides, with lfree and used_mem; a pointer outside the heap changes nothing; no payload that stays live is written; no free block lies below lfree if none did |
| SmallHeap.Heap.Realloc | stm32l475-atk-pandora/rt-thread/src/mem.c:421-510 | for a live block: no step, a Trim step, or a Take and a Give step, by the size alone, and the first min(old, new) bytes are kept at the result, where a block in use has room for the request; a Take step for NULL and a Give step for size zero; NULL if and only if the size is zero or too large, or a new block is needed and rt_malloc refuses it; in all cases no other live payload is written, and a failure changes nothing at all |
| SmallHeap.Heap.ShrinkInPlace | stm32l475-atk-pandora/rt-thread/src/mem.c:471-498 | a Trim step: the tail is given back in place and joined with what follows, no other payload changes |
| SmallHeap.Heap.Move | stm32l475-atk-pandora/rt-thread/src/mem.c:502-509 | allocate, copy, free: a Take step and a Give step of the old block, or NULL and nothing changed |
| SmallHeap.MovedKept | stm32l475-atk-pandora/rt-thread/src/mem.c:502-509 | neither allocation, copy nor free touches a payload that was live outside the old block |
| SmallHeap.CoalescedOk | stm32l475-atk-pandora/rt-thread/src/mem.c:156-194 | closing the only hole leaves no two free neighbours and the same used bytes |
| HeapBlocks.SplitHeaders | stm32l475-atk-pandora/rt-thread/src/mem.c:329-348 | after a cut the words in memory are the headers of the new tiling, next and prev inverse |
| HeapBlocks.MergeHeaders | stm32l475-atk-pandora/rt-thread/src/mem.c:166-193 | after a merge they are the headers of the joined tiling |
| HeapBlocks.HeaderNotLive | stm32l475-atk-pandora/rt-thread/src/mem.c:156-609 | no header, sentinel or free byte belongs to a live payload |
| SmallHeap.SplitStored | stm32l475-atk-pandora/rt-thread/src/mem.c:329-348 | after a cut, the bytes of all headers are those of the new tiling |
| SmallHeap.MergeStored | stm32l475-atk-pandora/rt-thread/src/mem.c:166-193 | after a merge, the bytes of all headers are those of the joined tiling |
| SmallHeap.PayloadWritten | stm32l475-atk-pandora/rt-thread/src/mem.c:502-509 | a copy into a live payload leaves the bytes of all headers |
| SmallHeap.WordsInMemory | stm32l475-atk-pandora/rt-thread/src/mem.c:96-105 | between calls, the bytes of every header read as the magic number, the used flag and the offsets of both neighbours |
| HeapLaws.LowestBlockTaken | stm32l475-atk-pandora/rt-thread/src/mem.c:305-311 | with no free block below lfree, the block found is the lowest that fits among those below the limit |
| HeapLaws.RefusedIff | stm32l475-atk-pandora/rt-thread/src/mem.c:305-307 | a request is refused if and only if each block that fits lies below lfree, or is the last one and has not a byte to spare |
| HeapLaws.WholeHeapRefused | stm32l475-atk-pandora/rt-thread/src/mem.c:305-307 | a fresh heap refuses a request for exactly the mem_size_aligned bytes that it has |
| HeapLaws.FreeUndoesMalloc | stm32l475-atk-pandora/rt-thread/src/mem.c:546-610 | freeing what was just allocated restores the blocks |
| HeapLaws.ShrinkKeepsLowestIff | stm32l475-atk-pandora/rt-thread/src/mem.c:471-498 | shrinking in place keeps all free blocks at or above lfree if and only if a free block lay below, or lfree was the free block right behind |
| HeapLaws.RunLowestIff | stm32l475-atk-pandora/rt-thread/src/mem.c:272-610 | over every run, no free block ever lies below lfree, if and only if at each shrinking realloc a free block lay below the block, or lfree was the free block right behind |
| HeapLaws.ShrunkTailMissed | stm32l475-atk-pandora/rt-thread/src/mem.c:471-498 | a full heap whose block is shrunk: the tail would fit a request that rt_malloc then refuses |
| HeapLaws.RunInv | stm32l475-atk-pandora/rt-thread/src/mem.c:272-610 | over every run of malloc, free and shrinking realloc: blocks tile the region, are aligned, no two free neighbours, lfree is free or the end, used_mem is the used span; without shrinking no free block lies below lfree |
| HeapLaws.RunPeak | stm32l475-atk-pandora/rt-thread/src/mem.c:349-369 | over every run max_mem is the largest used_mem so far |
| HeapLaws.RunConserves | stm32l475-atk-pandora/rt-thread/src/mem.c:349-369 | over every run used and free bytes add up to the region, and with nothing used the heap is one free block |
| MemHeap.MemHeap.constructor | stm32l475-atk-pandora/rt-thread/src/memheap.c:50-119 | one free item, the tail item, their words in memory, both rings, totals |
| MemHeap.MemHeap.Alloc | stm32l475-atk-pandora/rt-thread/src/memheap.c:138-281 | a Take step: the first item on the free ring that is large enough, split if an item and a minimum fit behind, the rest first on the free ring, max_used_size; the block at the result has room for the request and not much more; NULL if and only if the request is refused, and then nothing changes; both rings and the words of all items agree, totals are right; no live payload is written |
| MemHeap.RequestSize | stm32l475-atk-pandora/rt-thread/src/memheap.c:147-150 | the size that is searched for is at least the request and the minimum, aligned, and less than four bytes more than that takes |
| MemHeap.TakenServes | stm32l475-atk-pandora/rt-thread/src/memheap.c:187-259 | a pointer that rt_memheap_alloc returns is the payload of a block in use with room for the request, and with less to spare than another item with a minimal payload takes |
| MemHeap.TakenIff | stm32l475-atk-pandora/rt-thread/src/memheap.c:187-259 | the block found is cut right behind the bytes requested if and only if an item with a minimal payload is left of it, and the others stay |
| MemHeap.MemHeap.FindFree | stm32l475-atk-pandora/rt-thread/src/memheap.c:169-183 | the search stops at the first item on the free ring that is large enough, or at the header |
| MemHeap.MemHeap.FreeBlock | stm32l475-atk-pandora/rt-thread/src/memheap.c:536-591 | a Give step: merging left and right and the free ring, for all four combinations of free neighbours; no payload that stays live is written |
| MemHeap.MemHeap.GrowInPlace | stm32l475-atk-pandora/rt-thread/src/memheap.c:350-401 | a Grow step: the boundary to the free block behind moves; rings, words and totals follow; no live payload is written, although the item that was there is overwritten by the block |
| MemHeap.MemHeap.ShrinkInPlace | stm32l475-atk-pandora/rt-thread/src/memheap.c:432-491 | a Trim step: the tail becomes free, joined with a free block behind; rings, words and totals follow; no payload that stays live is written |
| MemHeap.MemHeap.Realloc | stm32l475-atk-pandora/rt-thread/src/memheap.c:284-492 | keeps the address if and only if the size fits in place, NULL if and only if it does not and is refused; the block at the result has room for the request; the steps taken, by size; keeps the first min(old, new) bytes in all cases and writes no other live payload; a Take step for NULL, a Give step for size zero; failure changes nothing at all |
| MemHeap.FitsInPlaceIff | stm32l475-atk-pandora/rt-thread/src/memheap.c:331-350 | a block is resized in place if and only if its new end lies in it, or the block behind is free and more than an item with a minimal payload is left between the new end and the end of that |
| MemHeap.MoveResult | stm32l475-atk-pandora/rt-thread/src/memheap.c:408-416 | allocate, copy, free: contents, live blocks and untouched payloads |
| MemHeap.MemHeap.Cut | stm32l475-atk-pandora/rt-thread/src/memheap.c:204-213 | the words of the new item and of both neighbours are stored, those of all others stay; no payload of the blocks as they are then is written |
| MemHeap.MemHeap.Join | stm32l475-atk-pandora/rt-thread/src/memheap.c:572-573 | the words of both neighbours are stored when an item leaves the block ring |
| MemHeap.MemHeap.FreeInsert | stm32l475-atk-pandora/rt-thread/src/memheap.c:583-586 | next_free and prev_free of the item and of the item that was first are stored; free_header is outside the pool |
| MemHeap.MemHeap.FreeRemove | stm32l475-atk-pandora/rt-thread/src/memheap.c:576-577 | next_free and prev_free of both neighbours on the free ring are stored |
| MemHeap.MemHeap.WordsInMemory | stm32l475-atk-pandora/rt-thread/src/memheap.c:24-119 | between calls, the bytes of every item read as the magic number with the used flag, the pool, both neighbours on the block ring, and, for a free one, both neighbours on the free ring |
| MemHeapLaws.RefusedIff | stm32l475-atk-pandora/rt-thread/src/memheap.c:155-183 | a request is refused if and only if each block that is large enough is the only free one and has not a byte to spare |
| MemHeapLaws.WholePoolRefused | stm32l475-atk-pandora/rt-thread/src/memheap.c:155-155 | a fresh pool refuses a request for all that is available |
| MemHeapLaws.FreeUndoesAlloc | stm32l475-atk-pandora/rt-thread/src/memheap.c:495-595 | freeing what was just allocated restores the blocks; the block is first on the free ring then |
| MemHeapLaws.LastFreedFirst | stm32l475-atk-pandora/rt-thread/src/memheap.c:495-595 | a request that fits into the block freed last gets that block, unless it was joined to a free block before it |
| PoolItems.ItemsApart | stm32l475-atk-pandora/rt-thread/src/memheap.c:50-595 | no item shares a byte with a live payload |
| PoolItems.BlockWritten | stm32l475-atk-pandora/rt-thread/src/memheap.c:204-213 | storing the first four words of one item leaves those of all others |
| PoolItems.LinksStay | stm32l475-atk-pandora/rt-thread/src/memheap.c:204-253 | a write outside an item's last two words leaves its place on the free ring |
| MemHeapLaws.PoolAddsUp | stm32l475-atk-pandora/rt-thread/src/memheap.c:50-595 | used bytes, available_size and one item per block and for the tail make up pool_size |
| MemHeapLaws.AllFreeAgain | stm32l475-atk-pandora/rt-thread/src/memheap.c:495-595 | with nothing in use the pool is one free block again |
| MemHeapLaws.RunInv | stm32l475-atk-pandora/rt-thread/src/memheap.c:138-595 | over every run of alloc, free, growing and shrinking realloc: blocks tile the pool, are aligned, no two free neighbours, the free ring lists exactly the free blocks |
| MemHeapLaws.RunPeak | stm32l475-atk-pandora/rt-thread/src/memheap.c:232-243 | over every run max_used_size is the largest pool_size - available_size so far |
| MemHeapLaws.RunConserves | stm32l475-atk-pandora/rt-thread/src/memheap.c:138-595 | over every run used bytes, available bytes and items add up to pool_size, and with nothing in use the pool is as after rt_memheap_init |
| JsonRoundTrip.ParsePrint | stm32l475-atk-pandora/packages/cJSON-v1.0.2/cJSON.c:329-349 | for every tree of null, booleans, ints, NUL-free strings, arrays and objects, parsing its formatted or unformatted text gives the tree and consumes exactly the text |
| JsonRoundTrip.ValueRoundTrip | stm32l475-atk-pandora/packages/cJSON-v1.0.2/cJSON.c:363-411 | the same at any depth and in front of any text that can follow a value |
| JsonRoundTrip.StringRoundTrip | stm32l475-atk-pandora/packages/cJSON-v1.0.2/cJSON.c:198-313 | parse_string undoes print_string_ptr on every NUL-free byte string |
| JsonRoundTrip.NumberRoundTrip | stm32l475-atk-pandora/packages/cJSON-v1.0.2/cJSON.c:102-121 | the digits, sign and end of every int are read back |
| JsonRoundTrip.PrintInjective | stm32l475-atk-pandora/packages/cJSON-v1.0.2/cJSON.c:348-349 | two trees with the same text, formatted or not, are equal |
| JsonNumerals.NumberIff | stm32l475-atk-pandora/packages/cJSON-v1.0.2/cJSON.c:102-121 | parse_number returns a value and a rest if and only if a numeral with that value, place by place, point and power included, is in front of the rest and no longer one is |
| JsonNumerals.NumeralRead | stm32l475-atk-pandora/packages/cJSON-v1.0.2/cJSON.c:102-121 | every numeral, those of section 6 of RFC 8259 and the laxer ones, is read to its end as what its digits mean |
| JsonGrammar.ValueIff | stm32l475-atk-pandora/packages/cJSON-v1.0.2/cJSON.c:363-375 | parse_value returns a tree and a rest if and only if a document of that tree, by the rules for brackets, braces, commas, colons, white space, words, numbers and literals, is in front of the rest |
| JsonGrammar.FailIff | stm32l475-atk-pandora/packages/cJSON-v1.0.2/cJSON.c:363-375 | and fails on exactly the texts in front of which there is no document, unless one has an escape that is stepped over blindly |
| JsonGrammar.RfcParsed | stm32l475-atk-pandora/packages/cJSON-v1.0.2/cJSON.c:329-345 | every JSON text by the grammar of RFC 8259 is parsed to its end, as the tree that its document stands for |
| JsonGrammar.WholeTextIff | stm32l475-atk-pandora/packages/cJSON-v1.0.2/cJSON.c:340-345 | with require_null_terminated exactly the texts are parsed that are a document with white space around it |
| JsonConforms.PrintedIsRfc | stm32l475-atk-pandora/packages/cJSON-v1.0.2/cJSON.c:348-349 | both printed forms of every tree are JSON texts by the grammar of RFC 8259, and stand for the tree |
| JsonLayout.PrintedLayout | stm32l475-atk-pandora/packages/cJSON-v1.0.2/cJSON.c:414-663 | formatted text is the tokens of the tree with a new line for every member and closing brace, indented by the number of open brackets and braces, a tab behind a colon and a blank behind a comma of an array; unformatted text is the tokens alone |
| JsonLiterals.BodyFits | stm32l475-atk-pandora/packages/cJSON-v1.0.2/cJSON.c:203-205 | whatever is decoded, also from escapes and surrogate pairs, fits into what the first pass counted |
| JsonMeaning.WellFormedIff | stm32l475-atk-pandora/packages/cJSON-v1.0.2/cJSON.c:208-254 | a text is a literal by the grammar in section 7 of RFC 8259 if and only if it is spelled by raw bytes, two-character escapes and \u escapes with hex digits in either case |
| JsonMeaning.WellFormedMeans | stm32l475-atk-pandora/packages/cJSON-v1.0.2/cJSON.c:208-254 | every such literal is decoded up to its closing quote, to the UTF-8 forms of its units; zeros and surrogates without their other half are dropped, a high one with the \u escape behind it |
| JsonMeaning.LiteralTaken | stm32l475-atk-pandora/packages/cJSON-v1.0.2/cJSON.c:208-254 | the same for given tokens and any text behind them |
| JsonMeaning.StringMeansIff | stm32l475-atk-pandora/packages/cJSON-v1.0.2/cJSON.c:198-255 | a literal stands for code points and parse_string returns exactly their UTF-8 form and the text behind, if and only if no code point is zero and each surrogate has its other half |
| JsonMeaning.UnescapedPoint | stm32l475-atk-pandora/packages/cJSON-v1.0.2/cJSON.c:209-211 | every byte of the UTF-8 form of an unescaped code point stands for itself, so such text is taken over as it is |
| JsonMeaning.SpelledHex4 | stm32l475-atk-pandora/packages/cJSON-v1.0.2/cJSON.c:183-193 | parse_hex4 reads every spelling of a number by four hex digits, and nothing else as that number |
| JsonMeaning.QuotedIsLiteral | stm32l475-atk-pandora/packages/cJSON-v1.0.2/cJSON.c:290-312 | what print_string_ptr writes for any NUL-free string is a literal of that grammar |
| JsonMeaning.EscapeMeansCodePoint | stm32l475-atk-pandora/packages/cJSON-v1.0.2/cJSON.c:222-244 | the escapes of any scalar value but zero, with digits in either case, surrogate pairs of RFC 2781 included, decode to bytes that a decoder after section 3 of RFC 3629 reads as that value |
| JsonMeaning.LoneSurrogate | stm32l475-atk-pandora/packages/cJSON-v1.0.2/cJSON.c:222-231 | a low surrogate, or a high one without a \u behind it, yields nothing; a high one before another escape than a low surrogate swallows that escape |
| JsonLiterals.BodyNulFree | stm32l475-atk-pandora/packages/cJSON-v1.0.2/cJSON.c:208-254 | no terminator is ever decoded |
| JsonUnicode.Utf8Decodes | stm32l475-atk-pandora/packages/cJSON-v1.0.2/cJSON.c:235-243 | the stored bytes are the UTF-8 form of the code point |
| JsonUnicode.Utf8Unique | stm32l475-atk-pandora/packages/cJSON-v1.0.2/cJSON.c:235-243 | and the only bytes that a decoder after section 3 of RFC 3629 reads as that code point |
| JsonUnicode.CombineInverse | stm32l475-atk-pandora/packages/cJSON-v1.0.2/cJSON.c:232-232 | combining undoes the split into surrogates |
| JsonStrings.ParseString | stm32l475-atk-pandora/packages/cJSON-v1.0.2/cJSON.c:198-255 | the two passes over positions and an output array: decoded bytes, terminator, end position; array bounds hold |
| JsonStrings.CountPass | stm32l475-atk-pandora/packages/cJSON-v1.0.2/cJSON.c:203-203 | the first pass counts what the specification counts |
| JsonStrings.PutUtf8 | stm32l475-atk-pandora/packages/cJSON-v1.0.2/cJSON.c:235-243 | the fall-through switch stores the bytes from last to first |
| JsonStrings.PrintString | stm32l475-atk-pandora/packages/cJSON-v1.0.2/cJSON.c:258-313 | quoted text and terminator fill the allocation exactly |
| JsonStrings.WriteString | stm32l475-atk-pandora/packages/cJSON-v1.0.2/cJSON.c:290-312 | writes the quoted text and nothing else, with or without escapes |
| JsonBuffer.SmearIsPower | stm32l475-atk-pandora/packages/cJSON-v1.0.2/cJSON.c:123-123 | from 1 to 2^30 the shifts and ors yield the least power of two not below the argument |
| JsonBuffer.PrintBuffer.Ensure | stm32l475-atk-pandora/packages/cJSON-v1.0.2/cJSON.c:127-143 | room for the request, contents kept; a new buffer only if the old one is too small, and then of the size that pow2gt yields, less than twice what was needed |
| JsonBuffer.PrintBuffer.Update | stm32l475-atk-pandora/packages/cJSON-v1.0.2/cJSON.c:144-151 | finds the end of what was printed |
| JsonBuffer.PrintBuffer.PrintArray | stm32l475-atk-pandora/packages/cJSON-v1.0.2/cJSON.c:459-474 | text of the array and terminator from the offset on, whatever the buffer held and however it grew; everything before is kept |
| JsonBuffer.PrintBuffer.PrintObject | stm32l475-atk-pandora/packages/cJSON-v1.0.2/cJSON.c:566-613 | the same for objects, with indentation |
| JsonBuffer.PrintBuffered | stm32l475-atk-pandora/packages/cJSON-v1.0.2/cJSON.c:351-359 | for every tree, format and initial size, the text is the one that the joining printer gives, with its terminator, inside the buffer |
| JsonJoin.JoinValue | stm32l475-atk-pandora/packages/cJSON-v1.0.2/cJSON.c:378-411 | the joining printer returns that text and its terminator in memory of its own |
| JsonJoin.JoinArray | stm32l475-atk-pandora/packages/cJSON-v1.0.2/cJSON.c:475-516 | array by array the parts fill no more than the space reckoned |
| JsonJoin.JoinObject | stm32l475-atk-pandora/packages/cJSON-v1.0.2/cJSON.c:614-663 | the same for objects |
| JsonJoin.ItemsFit | stm32l475-atk-pandora/packages/cJSON-v1.0.2/cJSON.c:484-492 | the space that print_array reckons suffices for every array |
| JsonJoin.MembersFit | stm32l475-atk-pandora/packages/cJSON-v1.0.2/cJSON.c:625-635 | the space that print_object reckons suffices for every object |
| JsonParser.Parse | stm32l475-atk-pandora/packages/cJSON-v1.0.2/cJSON.c:329-345 | the parser on positions: the tree, or NULL; with require_null_terminated only if nothing but white space follows |
| JsonParser.ParseValue | stm32l475-atk-pandora/packages/cJSON-v1.0.2/cJSON.c:363-375 | agrees with the grammar functions on every text without malformed escapes, failures included |
| JsonParser.ParseElements | stm32l475-atk-pandora/packages/cJSON-v1.0.2/cJSON.c:418-438 | the loop that appends to the child chain builds the items in order |
| JsonParser.ParsePairs | stm32l475-atk-pandora/packages/cJSON-v1.0.2/cJSON.c:529-552 | the same for members |
| JsonParser.ParseNumber | stm32l475-atk-pandora/packages/cJSON-v1.0.2/cJSON.c:102-121 | digit loops, fraction and exponent over positions |
| JsonMinify.MinifyFormatted | stm32l475-atk-pandora/packages/cJSON-v1.0.2/cJSON.c:741-756 | minifying the formatted text of any such tree gives exactly its unformatted text |
| JsonMinify.MinifyPrint | stm32l475-atk-pandora/packages/cJSON-v1.0.2/cJSON.c:741-756 | the same at any depth and in front of any text |
| JsonPieces.TextMinified | stm32l475-atk-pandora/packages/cJSON-v1.0.2/cJSON.c:741-756 | of a text of tokens, white space and comments, minifying keeps exactly the tokens |
| JsonPieces.InsertedIsDropped | stm32l475-atk-pandora/packages/cJSON-v1.0.2/cJSON.c:741-756 | a comment or white space between tokens makes no difference to the minified text |
| JsonPieces.EarlyEnd | stm32l475-atk-pandora/packages/cJSON-v1.0.2/cJSON.c:750-750 | a block comment that begins with a slash ends there |
| JsonPieces.LastLine | stm32l475-atk-pandora/packages/cJSON-v1.0.2/cJSON.c:749-749 | a comment at the end of the text needs no line feed |
| JsonMinify.Minify | stm32l475-atk-pandora/packages/cJSON-v1.0.2/cJSON.c:741-756 | in place: the array holds the minified text and its terminator, and the write position never passes the read position |
| JsonMinify.CopyInside | stm32l475-atk-pandora/packages/cJSON-v1.0.2/cJSON.c:752-752 | the loop over a string literal copies it unchanged, escapes included |
| OptparseLaws.CommandLine | stm32l475-atk-pandora/packages/optparse-v1.0.0/optparse.c:148-234 | with permute on and only known options, calling optparse until -1 stably partitions argv: argv[1..optind) are the options, their arguments and a -- in order, argv[optind..] the operands in order; exactly the options were delivered, in order |
| OptparseWords.LineMeans | stm32l475-atk-pandora/packages/optparse-v1.0.0/optparse.c:148-234 | for every command line written as words by what optstring says: exactly its letters are delivered, in order, each with the argument that is attached to it or follows it, or with none, or as missing it at the end; argv ends as the words with options, a -- and then the operands |
| OptparseWords.TypeMeans | stm32l475-atk-pandora/packages/optparse-v1.0.0/optparse.c:59-71 | behind its first place in optstring, no colon stands for a letter without argument, one for a required and two for an optional one |
| OptparseWords.UnknownIff | stm32l475-atk-pandora/packages/optparse-v1.0.0/optparse.c:59-71 | a letter is unknown if and only if it is a colon or not in optstring |
| OptparseLaws.Partitions | stm32l475-atk-pandora/packages/optparse-v1.0.0/optparse.c:148-234 | the same from any point between two calls, inside a group of options too |
| OptparseLaws.SplitIsStable | stm32l475-atk-pandora/packages/optparse-v1.0.0/optparse.c:148-234 | options and operands interleave to the original arguments: nothing is lost, doubled or reordered |
| OptparseLaws.CallStep | stm32l475-atk-pandora/packages/optparse-v1.0.0/optparse.c:163-178 | after a call the next option is where it was, and what lies ahead is unchanged |
| Optparse.OperandPassed | stm32l475-atk-pandora/packages/optparse-v1.0.0/optparse.c:163-178 | the recursive call followed by optparse_permute is one rotation of what was read in front of the operands |
| Optparse.Parser.Permute | stm32l475-atk-pandora/packages/optparse-v1.0.0/optparse.c:50-57 | the loop moves one argument behind what was read and shifts the rest |
| Optparse.Parser.Next | stm32l475-atk-pandora/packages/optparse-v1.0.0/optparse.c:148-234 | one call, recursion included, does to argv, optind, subopt and optarg what the rotation says |
| Optparse.Parser.ReadOption | stm32l475-atk-pandora/packages/optparse-v1.0.0/optparse.c:179-231 | one option: unknown, without, with required or optional argument, last of its group or not |
| FlexibleButton.Button.Advance | stm32l475-atk-pandora/packages/FlexibleButton-v1.0.0/flexible_button.c:119-255 | one pass of the switch over status, counter wrap included |
| FlexibleButton.Scanner.Register | stm32l475-atk-pandora/packages/FlexibleButton-v1.0.0/flexible_button.c:51-78 | duplicates and an eighteenth key are refused; the new key goes first; the resting word clears one bit more |
| FlexibleButton.Scanner.Read | stm32l475-atk-pandora/packages/FlexibleButton-v1.0.0/flexible_button.c:86-106 | cont are the keys that are pressed, by their own polarity, and trg those that were not pressed before |
| FlexibleButton.Scanner.Scan | stm32l475-atk-pandora/packages/FlexibleButton-v1.0.0/flexible_button.c:282-286 | every key takes one step on its own level and edge; no key disturbs another |
| ButtonLaws.ScanAll | stm32l475-atk-pandora/applications/iotb_key_process.c:372-379 | over any number of scans every key runs on its own samples |
| ButtonLaws.RunFollows | stm32l475-atk-pandora/packages/FlexibleButton-v1.0.0/flexible_button.c:115-257 | over every run the events are sessions: down, a prefix of short start, long start, hold, then one closing event; status says how far the last one is |
| ButtonLaws.DownsMinusClosings | stm32l475-atk-pandora/packages/FlexibleButton-v1.0.0/flexible_button.c:115-257 | after every run PRESS_DOWN exceeds the closing events by one if status is not zero and by nothing otherwise, for any thresholds |
| ButtonLaws.SessionOrder | stm32l475-atk-pandora/packages/FlexibleButton-v1.0.0/flexible_button.c:115-257 | between two PRESS_DOWN every event comes at most once, in the order down, short start, long start, hold, closing |
| ButtonLaws.PressIsReported | stm32l475-atk-pandora/packages/FlexibleButton-v1.0.0/flexible_button.c:115-257 | exactly the events of one press, for every length in scans, modulo the sixteen-bit counter |
| ButtonLaws.EventRead | stm32l475-atk-pandora/packages/FlexibleButton-v1.0.0/flexible_button.c:119-270 | over every run the event that flex_button_event_read returns is the last one called, until a scan finds the key at rest and up |
| ButtonLaws.ClosedAsStartedIff | stm32l475-atk-pandora/packages/FlexibleButton-v1.0.0/flexible_button.c:144-207 | a press is closed by the event of its last start event if and only if its length is not at a threshold or one scan below, the counter has not wrapped below the hold threshold, and no press closes as short where short presses follow clicks without a gap |
| ButtonLaws.ClosedUnlikeStarted | stm32l475-atk-pandora/packages/FlexibleButton-v1.0.0/flexible_button.c:144-207 | with the board's thresholds, a press that ends in a short-up without a short start, and a long hold that ends in a click |
| ButtonLaws.SecondPressUnheardIff | stm32l475-atk-pandora/packages/FlexibleButton-v1.0.0/flexible_button.c:119-255 | after a first press of any length and any pause, the edge of a second press makes no difference if and only if it falls into the scan that closes the first one |
| ButtonLaws.UnheardIsLost | stm32l475-atk-pandora/packages/FlexibleButton-v1.0.0/flexible_button.c:119-255 | such a press is lost for good: however long the key is held, everything is as if it had stayed up |
| ButtonLaws.LostPress | stm32l475-atk-pandora/packages/FlexibleButton-v1.0.0/flexible_button.c:119-255 | a press of four scans, five scans after one of two, that is lost |
| ButtonLaws.SecondPress | stm32l475-atk-pandora/packages/FlexibleButton-v1.0.0/flexible_button.c:158-220 | every other second press is heard: while the key waits for it, it is a double click unless the click threshold has passed; after that it opens a session of its own |
| ButtonLaws.KeyHeardIff | stm32l475-atk-pandora/packages/FlexibleButton-v1.0.0/flexible_button.c:51-106 | a key calls back if and only if it is at one of the first sixteen positions and pressed in some scan |
| ButtonLaws.SeventeenthKey | stm32l475-atk-pandora/packages/FlexibleButton-v1.0.0/flexible_button.c:51-106 | of seventeen registered keys that are all pressed, the one registered first says nothing |

## Left out

- Threads, timers and the scheduler: only suspend, resume and timeout, as steps of the environment.
- Detach and delete of objects, hooks, debug output and assertions, tracing, and `rt_calloc`.
- The retry of rt_mutex_take after a signal, and chains of mutexes: one mutex, whose take and release are all that changes priorities.
- The 16-bit semaphore value and the entry counters do not wrap; a mutex is held fewer than 255 times at once.
- WaitList.SleepKeeps: a sleeper may be put at any position, not only where the flag prescribes; that order is proved for semaphores and mutexes through IpcList.
- MessageProtocol.NoLostWakeups: a woken thread may come back with another message or size; the code repeats the same call, so the model allows more runs.
- Event bits and the words of FlexibleButton are sets of bit positions; &, |, ^ and ~ are set operations.
- Critical sections of the heaps (`heap_sem`, the lock of a memheap) are taken for granted: one call at a time.
- MemHeap.MemHeap.Alloc: the code reads next, prev, next_free and prev_free from the item; the model reads the maps that memory agrees with, and stores all four words of an item where one of them changes. The words of free_header, which lies outside the pool, stay in the maps.
- `rt_memheap_detach`, the chain of several memheaps, and `rt_system_heap_init` of memheap.c.
- A memory pool for which rt_mp_init computes no block at all: the code then writes in front of its array.
- JsonRoundTrip.ParsePrint: numbers are the ints; text of other numbers (`%e`, `%f`, `pow`) and rounding are not modelled, the arithmetic of parse_number is exact.
- JsonStrings.ParseString: literals in which a backslash stands right before the terminator, or a quote, a backslash or the terminator among the four places behind a \u, are excluded; the passes of parse_string may then disagree about where the literal ends.
- JsonStrings.CountPass: the same literals are excluded.
- JsonParser.Parse: texts in which such a literal is reached are excluded.
- JsonParser.ParseValue: the same.
- JsonParser.ParseElements: the same, for an item of the array.
- JsonParser.ParsePairs: the same, for a name or a value of the object.
- JsonBuffer.PrintBuffer.Ensure: sizes are unbounded, where the code computes in int; JsonBuffer.SmearIsPower covers the bit trick up to 2^30, and beyond that the next power of two stands for it. Failing allocations, and item names and types beyond the tree, are not modelled.
- JsonBuffer.PrintBuffered: returns the buffer. The code returns buffer + i, where the indentation loop of print_object (cJSON.c:610-612) leaves the depth in i; printing starts at depth 0 and offset 0, so i is 0 there.
- cJSON_Duplicate, the editing functions, the error pointer and item references: easy functions on trees.
- JsonMinify.Minify: texts with an unclosed literal or block comment are excluded; cJSON_Minify then runs past the terminator.
- OptparseLaws.CommandLine: options outside optstring are excluded; after one inside a group the code does not reset its position in the group. Long options, `optparse_arg` and error texts are not modelled.
- FlexibleButton.Scanner.Read: read functions return 0 or 1 and are set for every key; keys are registered before the first scan, since registering moves the bits of the others.
