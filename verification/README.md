# A verified model of the lock-free MPMC queue

The repository's core is a bounded multi-producer multi-consumer ring queue. An array of
N = 2^k slots holds pairs (sequence word, data); two shared indexes are hints. An operation
takes effect when a compare-and-swap on one slot succeeds; advancing the index is a second
step that any thread may complete, or that the lazy variants leave to others. Ticket t lives
in slot t mod N, whose word is 2t while it is empty and 2t+1 while it is full, cut to the B
bits of the index type. On top of the queue stand a pack of G queues and an ownership wrapper
for unique pointers.

## How the model is built

- `Bits`: integer arithmetic of words, bit-and, bit length.
- `FifoSpec`, `Histories`: the atomic bounded FIFO, and what its histories say about order and
  tickets.
- `Machine`: the queue as a state machine. Any number of threads, one shared load or one
  compare-and-swap per step, a scheduler that picks the thread. There is one definition with
  two arithmetics: unbounded tickets, or words of B bits with every cast truncating.
- `Simulation`, `Linearizability`: the ticket machine refines the atomic FIFO.
- `WrapAround`: the word machine takes the same steps as the ticket machine.
- `Progress`, `Solo`, `Pair`: retries are paid for by successes; lone producers and consumers
  never wait; a call that runs alone finishes; one producer with one consumer needs no
  assumption on the schedule.
- `Hang`, `Stale`, `Limits`: where the code stops being right, exactly.
- `QueueClass`: the program's fields, array and loops, run by one thread on B-bit words, with
  every method proved against the atomic FIFO.
- `PackModel`, `PackMachine`, `PackClass`: the pack, as interleaved steps around atomic queues,
  around the step machine's queues, and as classes. `PackCalls`: what its calls do on the step
  machine.
- `PointerModel`, `PointerMachine`, `PointerClass`: the pointer queue, likewise.

Modelling decisions. Memory is sequentially consistent and a slot is read and swapped as a
whole. Data is an integer whose all-zero pattern is 0. The callback of `pop_if` is a pure
function; in the state machine its verdict is any boolean, chosen at the slot read. The two
overloads of `push` differ only in storing the index, so one method stands for both; those of
`pop` place their loads differently and are both written out. `tries` in a thread's control
state counts index loads and influences nothing. The queues inside `PackModel` and
`PointerModel` are atomic; `PackMachine` and `PointerMachine` show that every run around queues
of the step machine is a run of those models.

## Results where the code and its description differ

- `peek` and `pop_if` compare a word shifted right by one, which has B-1 bits, with an index
  of B bits. When the read index lags behind a pop and the ticket one lap ahead of it has its
  top bit set, they never recognise the lap. A pending `peek` or `pop_if` can then answer only
  after a new call of `pop`, exactly if no `pop` is undecided and no thread is about to swap the
  read index from its present value (`HangsExactly`; on words `RealQueueHangs`). Such a state is
  reachable exactly if pops are lazy (`OnlyLazyPopsHang`): one thread alternating push and pop
  2^(B-1) - N + 1 times and then calling `peek` on the empty queue is there (`HangingPeek`). Run
  by one thread, both finish within two iterations in every other state and never in this one
  (`MpmcQueue.Peek`, `MpmcQueue.PopIf`).
- `empty()` does not advance the read index although line 150 of the repository's README says
  so, and so calls an empty queue non-empty exactly when the index it loaded lags
  (`EmptyAnswers`); with lazy pops, one push and one pop are enough (`EmptySaysNo`).
- `peek(d, i)` and the callback of `pop_if` receive the slot word 2t+1, not the ticket.
- The constructor's check looks at 32 bits of the capacity: it also accepts 0 and every power
  of two from 2^32 on (`AcceptsCapacity`). Between 1 and 2^32 - 1 it is exactly right; with
  fewer than two spare bits a lone `pop` on a new queue never ends (`TwoBitsDecide`).
- A pack consumer may take K+1 elements from one queue before it tries another, where line 239
  of the repository's README says K: exactly when it found that queue by scanning, because the pop of
  the scan is not counted (`StreakBound`). Such a run exists for every K, every capacity and
  every pack of at least two queues (`OneMoreThanK`).
- The source does not say how long a thread may pause. On B-bit words linearizability is proved
  for schedules in which a thread that reads a slot or swaps one holds an index at most
  2^(B-1) - N tickets old, one that only has to swap an index holds one less than 2^B old, and
  an exchange names a ticket issued at most 2^(B-1) pushes ago. With one producer and one
  consumer (or one thread) and no exchange every schedule is such (`OneProducerOneConsumer`).
  The bound is sufficient, and tight for slot accesses: on words a pop whose index is a tickets
  old decides exactly if a mod 2^(B-1) is zero or more than 2^(B-1) - N, and is then right with
  its index exactly if the queue is empty or a is a multiple of 2^B (`PopAtAge`); a push at such
  an age stores for a later ticket or calls the queue full (`PushAtAge`). One ticket beyond the
  bound, a pop takes the youngest element of a full queue and calls any other queue empty
  (`OneTicketTooOldToPop`); a push calls any non-empty queue full and stores in the wrong slot
  of an empty one unless N = 1 (`OneTicketTooOldToPush`, `StalePushOnEmpty`). Runs of each kind
  exist (`StalePopTakesTheTail`, `StalePopMissesElements`, `StalePushSaysFull`).
- `exchange` drops the top bit of the index it is given, so an index stands for any queued
  ticket that agrees with it modulo 2^(B-1): after one push, an exchange at the never issued
  index 2^(B-1) succeeds (`ExchangeUnissued`).

## Model

| member | source | states |
|---|---|---|
| Linearizability.TicketMachineIsLinearizable | mpmc_queue.h:283-538 | for any number of threads, any schedule and all four lazy settings: each call takes effect exactly once, between invocation and response, with the answer the atomic FIFO of capacity N gives at that moment; index swaps are invisible |
| Linearizability.EffectBetween | mpmc_queue.h:295-302 | a response repeats the answer of the call's only effect, which lies after its invocation |
| Linearizability.RealTimeOrder | mpmc_queue.h:295-302 | a call that responded before another was invoked took effect first |
| Linearizability.Reachable | mpmc_queue.h:283-351 | the slot, index-lag and thread-local invariant holds in every reachable state |
| Linearizability.SlotsHoldTheirTickets | mpmc_queue.h:188-192 | in every reachable state, with R pops and W pushes done: R <= W <= R+N, the slot of ticket t (index t mod N) holds (2t+1, value) for queued t and (2t, zero) for the N-(W-R) next ones, and w, r lag W, R by at most one |
| Simulation.ForwardSimulation | mpmc_queue.h:283-351 | every step of every thread keeps the invariant and is invisible or one atomic operation with the same answer |
| Simulation.WinnerIsCurrent | mpmc_queue.h:295-307 | a slot swap succeeds only for a thread whose held index equals the live index and the ghost count, at the tail for push and the head for pop, on the head's current data |
| Simulation.PushReads | mpmc_queue.h:290-313 | which of store, help, full and retry a push iteration takes, by the ticket in its slot; full means exactly N elements |
| Simulation.PopReads | mpmc_queue.h:326-348 | the same for pop; empty means length zero |
| Simulation.PeekReads | mpmc_queue.h:461-474 | the same for peek and pop_if, which help only behind a visible lap |
| Simulation.PushKeeps | mpmc_queue.h:292-295 | storing at the tail turns the array of contents q into that of q + [d] |
| Simulation.PopKeeps | mpmc_queue.h:328-330 | clearing the head one lap ahead turns the array of q into that of its tail |
| Simulation.SwapKeeps | mpmc_queue.h:446-452 | exchange replaces one queued element and nothing else |
| Histories.FirstInFirstOut | mpmc_queue.h:283-351 | what was pushed, as last exchanged, is what was popped followed by what is queued |
| Histories.TicketsAreConsecutive | mpmc_queue.h:365-374 | the indexes of successful pushes are 0, 1, 2, ..., and so are those of pops |
| Histories.PopDeliversItsTicket | mpmc_queue.h:399-412 | the pop answering index i delivers the value pushed at i, as last exchanged before it |
| WrapAround.WordsFollowTickets | mpmc_queue.h:287-313 | along every schedule in which each moving thread is fresh (an index read at most 2^(B-1) - N tickets ago at a slot access, less than 2^B at an index swap; an exchange of a ticket at most 2^(B-1) pushes old), the B-bit machine's states and trace are those of the ticket machine cut to B bits |
| WrapAround.WordMachineIsLinearizable | mpmc_queue.h:283-538 | hence the real queue's trace is the cut of a linearizable one |
| WrapAround.RealQueueIsFifo | mpmc_queue.h:365-412 | hence its values leave in push order, as last exchanged in the ticket run (in the order of the real trace's own pushes if no exchange succeeded), and its indexes count 0, 1, 2, ... modulo 2^B |
| WrapAround.ActCommutes | mpmc_queue.h:290-349 | one step of any fresh thread commutes with cutting to words, all truncating casts included |
| WrapAround.ShiftedTest | mpmc_queue.h:471 | the shifted lap test on words holds exactly for the right ticket and only if it is visible |
| WrapAround.CutSlotOf | mpmc_queue.h:96 | masking a wrapped index gives the slot of its ticket |
| WrapAround.SwapCommutes | mpmc_queue.h:446-452 | an exchange whose index is a past ticket at most 2^(B-1) pushes old does on words what it does on tickets |
| WrapAround.ExchangeOnWords | mpmc_queue.h:446-452 | on words it therefore succeeds exactly when that ticket is queued holding the expected value, and the words it leaves are those of the atomic queue with that element replaced, or unchanged |
| Progress.RetryBound | mpmc_queue.h:285-350 | on tickets, every iteration that does not return is paid for by growth of (slot changes + own index), so a call loads its index at most 2S + 2 times, S slot changes by others; peek and pop_if included while laps are visible |
| Progress.RealRetryBound | mpmc_queue.h:285-350 | the same 2S + 2 for the B-bit queue along schedules as in WordsFollowTickets, with S the successful pushes, pops and exchanges its own trace shows meanwhile |
| Progress.MeterGrows | mpmc_queue.h:295-343 | no step lowers that meter, every slot or index change raises it |
| Progress.LoneProducerWaitFree | mpmc_queue.h:283-315 | with a single pushing thread, push returns in its first iteration, or by its second when lazy: on tickets, and on B-bit words along schedules as in WordsFollowTickets |
| Progress.LoneConsumerWaitFree | mpmc_queue.h:319-351 | the dual for a single consumer without exchanges, likewise on both |
| Pair.OneProducerOneConsumer | mpmc_queue.h:283-576 | with one pushing thread and one thread for pop, pop_if, peek and empty (or one for all), every schedule of the B-bit queue whatsoever: its trace is the cut of a linearizable one, values leave in push order, indexes count modulo 2^B, push and pop return in the first iteration or by the second when lazy |
| Solo.CallAlone | mpmc_queue.h:283-569 | after any schedule, while all others pause wherever they are, starting any call and stepping only that thread ends within eight steps with its response: the atomic FIFO's answer, empty's being exact and pop_if's the callback's; peek and pop_if need the read index not to lag behind an invisible lap; on B-bit words too if the schedule followed so far |
| Hang.HangsUntilSomebodyPops | mpmc_queue.h:466-474 | behind an invisible lap, with no pop undecided and no thread about to swap the read index from its present value: no pending peek or pop_if answers until a thread calls pop, in any interleaving |
| Hang.RealQueueHangs | mpmc_queue.h:466-474 | the same for the B-bit queue along schedules as in WordsFollowTickets |
| Hang.HangIsReachable | mpmc_queue.h:333-337 | every lazily popping queue reaches such a state, empty and idle, by one thread alternating push and pop 2^(B-1) - N + 1 times, on a schedule the B-bit queue follows |
| Hang.HangsExactly | mpmc_queue.h:461-474 | a pending peek or pop_if stays undecided in every continuation without a new pop if and only if the state is such; otherwise threads already under way can make it answer without any new call |
| Hang.EagerPopsNeverStick | mpmc_queue.h:333-336 | without lazy pops no schedule leads to such a state: the read index lags only while a thread is between its slot swap and its index swap |
| Hang.OnlyLazyPopsHang | mpmc_queue.h:333-337 | some schedule makes a peek or pop_if depend on a new pop if and only if pops are lazy |
| Limits.EmptyAnswers | mpmc_queue.h:554-569 | empty answers true exactly when the queue is empty and the loaded index is the head's ticket |
| Limits.EmptySaysNo | mpmc_queue.h:554-569 | with lazy pops, after one push and one pop the empty queue answers false, on tickets and on words |
| Stale.PopAtAge | mpmc_queue.h:326-348 | for an index any number a of tickets old: on words a pop decides at its read exactly if a mod 2^(B-1) is 0 or more than 2^(B-1) - N (on tickets only if a = 0); it takes the element (-a) mod 2^(B-1) places behind the head, or answers empty if there is none; right with the index exactly if the queue is empty or 2^B divides a, in its value exactly if empty or that element equals the head |
| Stale.PushAtAge | mpmc_queue.h:290-313 | the same for push: it stores for the ticket (-a) mod 2^(B-1) places beyond the tail if that is free, the tail's slot exactly if 2^(B-1) divides a, and else answers full |
| Stale.TakeReadAtAge | mpmc_queue.h:461-474 | what pop, peek and pop_if decide on the entry they read, for every age |
| Stale.SlotSwapAtAge | mpmc_queue.h:295-332 | when the comparison of a slot swap succeeds on words, for every age: on the p-th free slot for push, on the p-th element with the same data for pop |
| Stale.OneTicketTooOldToPop | mpmc_queue.h:326-346 | one ticket beyond the staleness bound, a pop on words takes the tail of a full queue and calls any other queue empty; right with its index exactly for an empty queue, right in its value exactly for an empty queue or a full one with head and tail alike |
| Stale.OneTicketTooOldToPush | mpmc_queue.h:309-312 | one ticket beyond the bound, a push on words answers full on any non-empty queue |
| Stale.StalePushOnEmpty | mpmc_queue.h:290-295 | ... and on an empty one succeeds in the slot of the last ticket of the lap, which is the tail's slot exactly for N = 1 |
| Stale.StalePopTakesTheTail | mpmc_queue.h:321-332 | for every capacity and width a run of the B-bit queue leads a pop paused one ticket beyond the bound to answer ticket 0 with the youngest of N different elements, which for N >= 2 is not the head |
| Stale.StalePopMissesElements | mpmc_queue.h:344-347 | likewise, with any number i < N of elements queued, to answer that there is none |
| Stale.StalePushSaysFull | mpmc_queue.h:309-312 | likewise, with any number 0 < i <= N of elements queued, a paused push to answer full |
| Limits.TwoBitsAreNeeded | mpmc_queue.h:261 | the words possible at the write and at the read index are pairwise distinct if and only if k + 2 <= B |
| Limits.TwoBitsDecide | mpmc_queue.h:340-347 | a lone pop on a new queue ever ends if and only if k + 2 <= B, and then says within eight steps that there is no element |
| Limits.AcceptsCapacity | mpmc_queue.h:261 | exactly which capacities below 2^64 the constructor accepts |
| Limits.AcceptedExactly | mpmc_queue.h:261 | for 0 < n < 2^32 those are the 2^k with k + 2 <= B |
| Bits.BitsForValue | mpmc_queue.h:123-132 | the loop computes the bit length |
| Bits.MaskIsMod | mpmc_queue.h:73-96 | masking with 2^k - 1 is the remainder modulo 2^k |
| Bits.PowerTest | mpmc_queue.h:261 | n & (n - 1) is zero exactly for powers of two |
| QueueClass.MpmcQueue.constructor | mpmc_queue.h:251-267 | the filled array is the empty FIFO |
| QueueClass.MpmcQueue.Create | mpmc_queue.h:251-267 | for every capacity below 2^64: the check passes exactly for 0 and the powers of two that leave two spare bits or exceed 32 bits; a valid empty queue of that capacity results exactly for the 2^k with k + 2 <= B |
| QueueClass.MpmcQueue.Push | mpmc_queue.h:355-388 | appends and answers the ticket modulo 2^B, or answers full at exactly N elements and changes nothing; one iteration, two if the index lagged; what lags afterwards |
| QueueClass.MpmcQueue.Pop | mpmc_queue.h:319-351 | removes and returns the head, or answers empty; one iteration, two if the index lagged |
| QueueClass.MpmcQueue.PopIndexed | mpmc_queue.h:392-424 | the same with the ticket modulo 2^B |
| QueueClass.MpmcQueue.PushKeepN | mpmc_queue.h:426-444 | contents q become the last N elements of q + [d], within two outer iterations |
| QueueClass.KeepLast | mpmc_queue.h:426-444 | keeping the last N after each of m additions keeps the last N of the contents followed by the m values |
| QueueClass.MpmcQueue.PushKeepEach | src/gtest_mpmc_queue.cpp:193 | m calls of push_keep_n leave the last N of the contents followed by the m values |
| QueueClass.MpmcQueue.Exchange | mpmc_queue.h:446-452 | succeeds exactly when a queued ticket agrees with i modulo 2^(B-1) and holds the expected value; replaces that element only |
| QueueClass.ExchangeTest | mpmc_queue.h:448-451 | the one entry exchange compares decides that condition, and at most one queued ticket meets it |
| QueueClass.ExchangeUnissued | mpmc_queue.h:446-452 | after one push, which answers index 0, exchange succeeds at index 2^(B-1) and the head is the new value |
| QueueClass.MpmcQueue.Peek | mpmc_queue.h:478-501 | in every state: returns the head and its slot word within two iterations, contents unchanged, if and only if the read index does not lag behind an invisible lap; else no number of iterations ends it or changes anything |
| QueueClass.MpmcQueue.PopIf | mpmc_queue.h:504-538 | under the same if-and-only-if removes the head exactly when the callback accepts it with its slot word, within two iterations |
| QueueClass.LonePeekRead | mpmc_queue.h:458-474 | behind an invisible lap an undisturbed iteration changes nothing and starts over; otherwise it answers or helps |
| QueueClass.MpmcQueue.Consume | mpmc_queue.h:541-552 | removes the elements up to and including the first the callback stops at, or all |
| QueueClass.MpmcQueue.Empty | mpmc_queue.h:554-569 | true exactly when empty and the read index does not lag |
| QueueClass.MpmcQueue.Size | mpmc_queue.h:571-576 | exact value in every quiescent state: within one of the length before the indexes wrap, exact without lag, last branch only when just one index has wrapped, then off by N - 2^B modulo 2^64 |
| PackModel.OrderAndConservation | mpmc_queue_pack.h:55-103 | in any interleaving each producer's elements are popped in the order pushed, and pushed = popped + contents as multisets |
| PackModel.RoundRobin | mpmc_queue_pack.h:55-58 | the p-th producer of any run sits at queue (p mod 2^64) mod G; two share a queue exactly when their 64-bit counter values agree modulo G, that is, within one turn of the counter, when their numbers do |
| PackModel.StartsAt | mpmc_queue_pack.h:72-78 | in any run the c-th consumer stays at queue (c mod 2^64) mod G with a fresh quota until its first attempt |
| PackModel.StartsShared | mpmc_queue_pack.h:72-78 | hence two consumers start at the same queue exactly when their 64-bit counter values agree modulo G, within one turn of the counter when their numbers do |
| PackMachine.RunsAreSeen | mpmc_queue_pack.h:60-103 | every run of producers and consumers around G step-machine queues, each shared access a step, is a run of the pack model with the same queues, producers and consumers |
| PackMachine.OrderInSteps | mpmc_queue_pack.h:55-103 | hence in each such run every producer's elements are popped in the order they entered its queue, and pushed = popped + contents; that they are the arguments of its calls is the next row |
| PackCalls.PushedAsAsked | mpmc_queue_pack.h:60-61 | in each such run the values a producer has pushed are, in order, the arguments of those calls of push that found it outside push and were accepted |
| PackCalls.ArgumentsInOrder | mpmc_queue_pack.h:55-103 | hence the arguments of each producer's accepted calls are, in the order of the calls, those popped and then those in its queue |
| PackCalls.PushAlone | mpmc_queue_pack.h:60-61 | after any run, while all others pause wherever they are, a push of v by an idle producer returns within eight steps: v is appended to its own queue if that has room, else nothing has changed |
| PackCalls.PopAlone | mpmc_queue_pack.h:80-103 | likewise a pop returns: with the head of the first non-empty queue from its own on, index and quota moved as a first or a later attempt demands; or all G queues are empty and nothing is taken |
| PackModel.ConsumerFields | mpmc_queue_pack.h:80-110 | index below G, count below max(K,1), the failed attempts of a call are consecutive queues |
| PackModel.FailedPopSawAll | mpmc_queue_pack.h:92-102 | when pop returns false, for each of the G queues there is exactly one step since this call started at which this consumer tried it, and it was empty at that step; the call took nothing |
| PackModel.BoundedBypass | mpmc_queue_pack.h:80-103 | a consumer makes at most (G-1)*max(K,1) pops elsewhere before it tries queue j (and then pops from it unless it is empty), whatever others do |
| PackModel.StreakBound | mpmc_queue_pack.h:84-99 | a streak of pops without trying another queue has the counted pops, plus one exactly when it began by scanning, and ends at max(K,1) counted pops: K + 1 if and only if the queue was reached by scanning |
| PackModel.OneMoreThanK | mpmc_queue_pack.h:92-100 | for every G >= 2, K and capacity, a run in which a consumer takes max(K,1) + 1 elements in a row from a queue found by scanning |
| PackClass.QueuePack.constructor | mpmc_queue_pack.h:47-51 | G separate empty queues, each of the configuration asked for (capacity, index width, laziness), and counters at zero |
| PackClass.Producer.constructor | mpmc_queue_pack.h:55-58 | takes the queue at the counter modulo G and advances the counter by one modulo 2^64 |
| PackClass.MakeProducers | mpmc_queue_pack.h:55-58 | m producers made in turn sit at the queues given by the counter's consecutive values; the first G on a new pack at queues 0 to G - 1 |
| PackClass.Producer.Push | mpmc_queue_pack.h:60-61 | appends to the own queue only, failing exactly when it is full; answers the ticket modulo the range of the pack's index type |
| PackClass.Consumer.constructor | mpmc_queue_pack.h:72-78 | starts at the queue at the counter modulo G with a fresh quota and advances the counter by one modulo 2^64 |
| PackClass.MakeConsumers | mpmc_queue_pack.h:72-78 | m consumers made in turn start at the queues given by the counter's consecutive values; the first G on a new pack at queues 0 to G - 1 |
| PackClass.Consumer.Pop | mpmc_queue_pack.h:80-103 | takes the head of the first non-empty queue of the scan, fails exactly when all are empty, and moves index and quota accordingly |
| PackClass.AllEmpty | mpmc_queue_pack.h:93-101 | a scan of G steps passes by every queue |
| PointerModel.OnePlace | pointer_mpmc_queue.h:47-75 | in every interleaving each existing pointer is in exactly one place: queued, owned by one handle, in one pop's hands, or deleted once |
| PointerMachine.RunsAreSeen | pointer_mpmc_queue.h:56-96 | every run of handles around a step-machine queue is a run of the pointer model with the same contents, hand-overs and deletions |
| PointerMachine.OnePlaceInSteps | pointer_mpmc_queue.h:56-96 | hence in each such run every object made is in exactly one place |
| PointerMachine.PopReturns | pointer_mpmc_queue.h:66-75 | in any run, when the inner pop responds with p, the caller's handle becomes p, which is neither queued nor deleted, and its former object has been deleted once |
| PointerMachine.PushAlone | pointer_mpmc_queue.h:56-64 | after any run, while all others pause wherever they are, a push by an idle thread returns within eight steps: the handle's pointer is appended and the handle null if there is room, else nothing has changed |
| PointerMachine.PopAlone | pointer_mpmc_queue.h:66-75 | likewise a pop returns within eight steps: the head is in the handle and the former object deleted, or the queue is empty and nothing has changed |
| PointerModel.HandedOutOnce | pointer_mpmc_queue.h:56-75 | accepted = delivered + drained + queued, in order, where delivered lists what the inner pops took; where that arrives is the next row |
| PointerModel.PopArrives | pointer_mpmc_queue.h:66-75 | in any interleaving, if a thread's inner pop takes x and its next step is the reset, then its handle owns x, x is nowhere else and not deleted, and the former object, if any, is deleted once |
| PointerModel.PushLeaves | pointer_mpmc_queue.h:56-64 | likewise a push with room appends the handle's pointer, and after the release the handle is null and nothing has been deleted |
| PointerModel.HandleChanges | pointer_mpmc_queue.h:71 | a reset of a handle, here outside calls to a new object or to none, deletes its former object once and touches nothing else |
| PointerModel.DestructorEmpties | pointer_mpmc_queue.h:47-54 | with all threads at rest, closing and as many inner pops as there are elements leave the queue empty, with the contents drained and the non-null ones deleted in order, every object owned once or deleted once |
| PointerModel.AfterDestruction | pointer_mpmc_queue.h:47-54 | after the destructor's loop nothing accepted is left and every pointer is owned once or deleted once |
| PointerModel.RejectedPushKeeps | pointer_mpmc_queue.h:61-65 | a push that is not accepted met a full queue or the destructor, and then in any continuation in which that thread takes no step its handle owns the pointer, which is in no queue, no other handle, no call and not deleted |
| PointerClass.PointerQueue.Push | pointer_mpmc_queue.h:77-85 | on success the queue has the pointer and the handle is null, else nothing changes |
| PointerClass.PointerQueue.Pop | pointer_mpmc_queue.h:87-96 | on success the handle owns the head and exactly its former pointee, if there was one, is deleted; else nothing changes |
| PointerClass.PointerQueue.Destroy | pointer_mpmc_queue.h:47-54 | exactly the queued non-null pointers are deleted, in order, each as often as it was queued |
| PointerClass.NonNullConcat | pointer_mpmc_queue.h:50-53 | the deletions of two stretches of contents are those of the first and then those of the second |
| PointerClass.NonNullCounts | pointer_mpmc_queue.h:50-53 | the deletions for given contents hold each non-null pointer as often as the contents, and never null |

## Left out

- Hardware memory ordering, the 16-byte swap builtins, alignment, padding and the union layout (mpmc_queue.h:137-240).
- `dump_state` and stream output; `shared_mpmc_queue.h` (the queue inside is the same); benchmarks, scripts and reports; aliases and type traits.
- Callbacks that touch the queue or throw; the class methods take pure functions.
- `size()` under concurrency: its loads are separate and it promises nothing then; the class method covers quiescent states.
- `push_keep_n` under concurrency: it is a sequence of pushes and pops, each covered by the state machine, and may discard more than one element.
- QueueClass.MpmcQueue.Create: does not model the object that exists after the check lets an unusable capacity through (no array for 0, words that cannot tell laps apart from 2^32 on); it answers null then. The compile-time sized variant only compares n with N.
- QueueClass.MpmcQueue.Peek: watches a given number of iterations, because the source's loop need not end; the contract says for every number whether it has ended.
- QueueClass.MpmcQueue.PopIf: as for Peek.
- PackClass.QueuePack.constructor: requires G >= 1; with G = 0 the source divides by zero. A K of zero behaves like one and is covered (`Quota`).
- PointerMachine.RunsAreSeen: does not run the destructor on the step machine; it runs after all calls, by one thread, as in `PointerModel` and `PointerClass`.
- PackMachine.RunsAreSeen: is about the ticket machine's queues; on B-bit words each queue follows along the schedules of `WordsFollowTickets`.
- Real allocation and deletion: pointers are numbers, deletions a log.
