# Kernel synchronisation and LwM2M protocol code, verified in Dafny

A model of the two parts of this repository that carry the hard promises, with proofs of those promises.

**FreeRTOS kernel.** The intrusive list everything stands on (`KernelList`); the queue as a byte ring buffer
(`QueueStorage`), as a lock-count protocol between tasks and interrupts (`QueueLock`), as a recursive mutex
(`RecursiveMutex`) and as a member of a queue set (`QueueSet`), with the 8-bit lock counts in `LockCount`; event groups
(`EventGroup`) and the rendezvous built on them (`Barrier`); the co-routine scheduler with its two delay lists
(`CoRoutine`).

**Protocol codecs and reliability.** CoAP messages in a buffer (`Coap`, sections 3 and 3.1 of RFC 7252); LwM2M trees as
TLV bytes (`Tlv`, section 6.4.3 of OMA-TS-LightweightM2M-V1_0) with integers as bytes (`IntBytes`) and as decimal text
(`DecimalText`); retransmission (`Transaction`, section 4.2 of RFC 7252); block-wise upload (`Block1`, section 2.5 of
RFC 7959). `Bytes` holds what the codecs share.

`dafny verify dfyconfig.toml` checks everything.

## How the modules are built

Each module states its operations as functions on a plain state, and proves what is promised about those functions:
one step keeps an invariant, every run keeps it, and the promise follows. Code that changes things step by step is a
class whose methods have the loops and assignments of the source and are proved to do exactly what the functions say,
so the promises hold of the code as well.

Concurrent code is cut at the points where another task or an interrupt can come in, and a run is any sequence of such
steps. Some states carry a count of what has happened (`wraps`, `due`, `selected`, `dropped`, `depth`, `log`, ...) which
no code reads; it is there to say things like "copies in the set plus items selected but unread". Invariants that many
proofs only pass along are compared with `true`, which keeps the verifier from taking them apart.

Where the code does not keep a promise as it is usually put, the module shows the input that breaks it and proves the
exact condition under which it holds:

- the 128th send or receive by interrupts during one lock wraps the 8-bit count and loses wake-ups, on a queue of any
  length (`QueueLock`), and makes the longest set miss all 128 items (`QueueSet`); the 255th makes the queue read as
  unlocked;
- a queue set shorter than its members together can drop a notification (`QueueSet`);
- overwriting a full queue of items of no bytes counts one too many (`QueueStorage`);
- 2^32 + 1 nested takes wrap the count and lose exclusion, which holds up to 2^32 (`RecursiveMutex`);
- an empty TLV container makes the whole parse give up, and a payload above 24 bits gets the header of an empty one
  (`Tlv`);
- of two transactions with one message ID the removal of the second takes out the first (`Transaction`);
- a repeated block 0 that comes late restarts an upload (`Block1`), although the comment in the handler speaks of
  retransmissions as already dealt with;
- blocks of two uploads at once are put together when their lengths fit, since only the message ID and the length are
  looked at (`Block1`);
- a second payload overwrites the payload marker of the first and cannot be found again (`Coap`);
- digits of 2^64 to 2^64 + 3 pass the overflow check and are read as 0 to 3, a lone sign is read as 0, and the least
  number is refused (`DecimalText`);
- writing a negative number into a buffer of exactly its digits puts the sign before the buffer (`DecimalText`);
- occurrence 255 of an option cannot be asked for (`Coap`).

## Model

| member | source | states |
|---|---|---|
| KernelList.RunKeepsOrder | freertos/source/list.c:145-238 | after any sequence of sorted insertions and removals the values are nondecreasing and equal values stand in the order they were inserted |
| KernelList.InsertKeepsOrder | freertos/source/list.c:145-209 | one insertion keeps that order, whatever the value, portMAX_DELAY included |
| KernelList.InsertPositionUnique | freertos/source/list.c:164-197 | behind every item not above the new value and before the first above it there is one place only, so the search stops there |
| KernelList.WalkAfterInsertEnd | freertos/source/list.c:116-142 | walking on from the index, an item put at the end is met last, save for the item the index stands on |
| KernelList.WalkAfterRemove | freertos/source/list.c:212-238 | removing any item, the one under the index included, leaves the visiting order of all the others |
| KernelList.WalkAfterInsertAt | freertos/source/list.c:145-209 | a sorted insertion leaves the visiting order of the others |
| KernelList.NextVisitsInTurn | freertos/source/include/list.h:318-330 | in as many successive steps as there are items each comes up once, in walk order: equal shares |
| KernelList.List.constructor | freertos/source/list.c:79-101 | an empty cycle: the end marker points at itself, carries portMAX_DELAY and has the index |
| KernelList.List.InsertEnd | freertos/source/list.c:116-142 | the linked cycle stays whole (next and previous inverse, containers and count right) and shows the item just before the index |
| KernelList.List.SearchPlace | freertos/source/list.c:164-197 | the search terminates on any cycle and finds the place the sorted order gives, portMAX_DELAY taken from the tail |
| KernelList.List.Insert | freertos/source/list.c:145-209 | the linked cycle stays whole and shows the item in its sorted place |
| KernelList.List.NextEntry | freertos/source/include/list.h:318-330 | the index moves to the item the walk names first, passing over the end marker |
| KernelList.Remove | freertos/source/list.c:212-238 | the item leaves the cycle its container names, the index steps back if it stood there, the count is returned |
| QueueStorage.WriteSlot | freertos/source/queue.c:1697-1791 | the slot for the next item is (read slot + 1 + count) mod length; Storage.Valid ties the write pointer to it |
| QueueStorage.WriteAppends | freertos/source/queue.c:1723-1735 | overwriting the first free slot appends to the stored items and disturbs none of them |
| QueueStorage.WritePrepends | freertos/source/queue.c:1736-1768 | overwriting the slot read last and stepping back prepends |
| QueueStorage.StepDropsOldest | freertos/source/queue.c:1776-1791 | stepping the read pointer forward exposes the oldest item and leaves the others in order |
| QueueStorage.Storage.CopyDataToQueue | freertos/source/queue.c:1697-1773 | append, prepend or replace on the stored items; exactly one case breaks the queue: overwriting a full queue of items of no bytes counts one too many |
| QueueStorage.Storage.CopyDataFromQueue | freertos/source/queue.c:1776-1791 | copies out the oldest item |
| QueueStorage.Storage.TrySend | freertos/source/queue.c:741-750 | a bounded deque: sends exactly when there is room or overwriting, and the contents become what the position says |
| QueueStorage.Storage.TryReceive | freertos/source/queue.c:1256-1340 | takes or, when peeking, only reads the oldest item; refuses exactly when empty |
| QueueLock.NoLossIff | freertos/source/queue.c:1051-1056 | for a queue of any length: no run loses a receiver's wake-up if and only if no lock sees more than 127 sends or receives by interrupts, and the same of senders |
| QueueLock.NoLostWakeUp | freertos/source/queue.c:1794-1911 | with at most 127 sends and 127 receives by interrupts in one lock, in every interleaving of tasks and interrupts sleeping receivers mean that the items are at most the woken tasks still to retry plus the counted sends, and the same of free places and senders |
| QueueLock.AtRestNobodySleepsInVain | freertos/source/queue.c:723-918 | with no call in progress nobody sleeps on a queue holding an item, or room, for them, and never both kinds |
| QueueLock.StepKeepsInv | freertos/source/queue.c:723-918 | every single step of a call, of an interrupt, of a time-out or of an unlock keeps the protocol invariant |
| QueueLock.UnlockCovers | freertos/source/queue.c:1794-1911 | the unlock loop wakes as many sleepers as sends were counted, or all there are |
| QueueLock.CountAfterIsrs | freertos/source/queue.c:1051-1056 | after any sequence of sends, overwrites and receives by interrupts during one lock, each let through or not by the code's own test, the 8-bit send count and the sleeping receivers depend on the number k of sends that went in and nothing else: from the 255th on the count reads as unlocked, and sends wake sleepers themselves |
| QueueLock.CountAfterIsrReceives | freertos/source/queue.c:1434-1518 | the same of the receive count, the sleeping senders and the number of receives |
| QueueLock.SendsWake | freertos/source/queue.c:1794-1880 | with n receivers asleep, any such sequence with k sends and the unlock wake the first min(k, n) for k up to 127, none for 128 to 255, and min(k - 255, n) past that |
| QueueLock.ReceivesWake | freertos/source/queue.c:1882-1911 | the same of k receives and sleeping senders |
| QueueLock.ReceiversLostIff | freertos/source/queue.c:1794-1880 | for any such sequence, exactly when receivers are left asleep beside items nobody awake will claim: more than 127 sends, more sleepers than sends past the 255th, and more items at the end than those sends and the tasks on their way account for |
| QueueLock.SendersLostIff | freertos/source/queue.c:1882-1911 | the same of senders and free places, interrupts between the two sections of the unlock included |
| QueueLock.WrappedCountLosesWakeUp | freertos/source/queue.c:264-275 | for a queue of any length, a run from creation in which the 128th send of one lock leaves a receiver asleep beside an item |
| QueueLock.WrappedCountLosesSender | freertos/source/queue.c:264-275 | for a queue of any length, a run from creation in which the 128th receive of one lock leaves a sender asleep beside a free place |
| QueueLock.PeekTakesNothing | freertos/source/queue.c:1309-1330 | the critical section of a peek leaves the item count, the length, both lock counts and the senders as they were; the receivers lose their first, if there is an item |
| QueueLock.ReceiveTakesOne | freertos/source/queue.c:1262-1308 | that of a receive takes one item and the first sender off its list, or finds the queue empty and changes nothing |
| QueueLock.SendAddsOne | freertos/source/queue.c:741-840 | that of a send adds one item, or replaces the one there when overwriting, and takes the first receiver off its list, or finds no room and changes nothing |
| QueueLock.ItemsAddUp | freertos/source/queue.c:723-1518 | in every run the items are those there at first and those put in, less those taken out; peeks count for nothing |
| QueueLock.PatientCallSucceeds | freertos/source/queue.c:735-918 | in every run a call whose time does not run out is under way until it finds an item, or room |
| QueueLock.RetriesIfItCan | freertos/source/queue.c:862-918 | with the queue locked a call looks again, and tries again if it can go on now |
| QueueLock.SleepsIfItCannot | freertos/source/queue.c:877-898 | else it is on its list before the queue is unlocked |
| QueueLock.SleepsAfterPlacing | freertos/source/queue.c:877-898 | and then it sleeps |
| QueueLock.GivesUpInTheEnd | freertos/source/queue.c:908-917 | its time up, it unlocks and gives up, a receiver after a last look |
| QueueLock.LooksLast | freertos/source/queue.c:1375-1410 | a receiver whose time is up tries again if there is an item after all |
| QueueLock.TimeOutTakesOne | freertos/source/queue.c:878-895 | a time-out takes its task off its list and nobody else |
| QueueLock.QueueControl.Lock | freertos/source/queue.c:264-275 | both counts become 0 unless already counting |
| QueueLock.QueueControl.UnlockTransmit | freertos/source/queue.c:1794-1880 | the loop refines the protocol step and hands back exactly the tasks woken |
| QueueLock.QueueControl.UnlockReceive | freertos/source/queue.c:1882-1911 | the same for the receive count |
| QueueLock.QueueControl.TrySend | freertos/source/queue.c:741-840 | the critical section of a send refines the protocol step |
| QueueLock.QueueControl.TryReceive | freertos/source/queue.c:1256-1340 | a receive takes one item and wakes one sender; a peek leaves the items, the locks and the senders as they were and wakes one receiver |
| QueueLock.QueueControl.SendFromIsr | freertos/source/queue.c:921-1065 | a send by an interrupt refines the protocol step: it wakes a task or counts |
| QueueLock.QueueControl.ReceiveFromIsr | freertos/source/queue.c:1434-1518 | a receive by an interrupt refines the protocol step |
| QueueSet.EveryItemAnnouncedIff | freertos/source/queue.c:2503-2552 | every notification reaches the set in every run if and only if the set is as long as its members together and either no lock sees more than 127 sends by interrupts or no member holds more than 127 items |
| QueueSet.RunConserves | freertos/source/queue.c:2503-2552 | in every run, of any set and with the 8-bit count wrapping or not: copies of a handle in the set, counted sends, handles selected but not read, items missed and notifications dropped are together the member's items |
| QueueSet.StepConserves | freertos/source/queue.c:2503-2552 | every operation on a member or the set keeps that account |
| QueueSet.SelectConserves | freertos/source/queue.c:2477-2487 | a selected handle names a member that has an unread item |
| QueueSet.CopiesAddUp | freertos/source/queue.c:2503-2552 | the set holds exactly the copies of its members' handles |
| QueueSet.BigSetNeverDrops | freertos/source/queue.c:2503-2552 | a set as long as its members together has room for every notification sent to it |
| QueueSet.SmallSetCanDrop | freertos/source/queue.c:2503-2552 | any shorter set can be made to drop one: the run is constructed |
| QueueSet.NeverDropsIffBigEnough | freertos/source/queue.c:2503-2552 | no run, the count wrapping or not, drops a notification exactly when the set is at least as long as the sum of its members |
| QueueSet.MissedInOneLock | freertos/source/queue.c:1794-1880 | exactly how many items a lock makes the set miss, whatever else happens meanwhile: none of up to 127 sends by interrupts, all of 128 to 255, 255 of more |
| QueueSet.LongLockMisses | freertos/source/queue.c:955-1056 | for any set and member, a run with 128 to 255 sends in one lock after which the set is empty and the member has all the items |
| QueueSet.NeverMissesIff | freertos/source/queue.c:955-1056 | no run makes the set miss an item exactly when no lock sees more than 127 sends or no member can hold more |
| QueueSet.SelectedInOrder | freertos/source/queue.c:2520 | first in, first out: in every run of sends to the back the handles selected so far, followed by those in the set, are those there at first followed by those announced, by sends and by unlocks, in order |
| QueueSet.AnnouncedOrDropped | freertos/source/queue.c:2503-2552 | what is not announced is dropped, and counted so |
| QueueSet.FrontIsNext | freertos/source/queue.c:2520 | a send to the front is selected next, and then the set is as it was |
| QueueSet.SelectTakesOldest | freertos/source/queue.c:2477-2487 | selecting takes the first handle and counts it for its member |
| QueueSet.StepItems | freertos/source/queue.c:741-1065 | a send puts one item in its member, a read takes one out, and nothing else changes any member's items |
| QueueSet.QueueSetControl.NotifyContainer | freertos/source/queue.c:2503-2552 | puts the handle at the end of the set asked for; a full set stays as it is |
| QueueSet.QueueSetControl.Send | freertos/source/queue.c:741-770 | with room, the member has one item more and the set is notified; else nothing changes |
| QueueSet.QueueSetControl.SendFromIsr | freertos/source/queue.c:955-1056 | notifies at once or counts, by the lock; at 127 the count wraps to -128, and at -1 it reads as unlocked |
| QueueSet.QueueSetControl.UnlockTransmit | freertos/source/queue.c:1794-1880 | the loop sends one notification for each counted send |
| QueueSet.QueueSetControl.Select | freertos/source/queue.c:2477-2487 | takes the oldest handle; none when the set is empty, nothing changed then |
| RecursiveMutex.Exclusion | freertos/source/queue.c:572-662 | in every interleaving of the unprotected reads, loads and stores, with up to 2^32 nested takes, at most one task has takes it has not given back |
| RecursiveMutex.BetweenCalls | freertos/source/queue.c:572-662 | with no call in progress the mutex is available exactly when it has no holder, and the count is the holder's takes less gives modulo 2^32, so 0 for a held mutex only at 2^32 takes |
| RecursiveMutex.StepKeepsInv | freertos/source/queue.c:572-662 | each unprotected read of the holder, load of the count, store of it and test of it keeps the invariant, and so do the two critical sections |
| RecursiveMutex.ExclusiveIff | freertos/source/queue.c:572-662 | every interleaving keeps exclusion if and only if no task may exceed 2^32 nested takes |
| RecursiveMutex.SharedPastLimit | freertos/source/queue.c:572-662 | a run from creation at whose end two tasks have takes outstanding: 2^32 + 1 takes and a give by one, a take by the other |
| RecursiveMutex.CountWraps | freertos/source/queue.c:639-643 | the 32-bit call count after any number of takes by the holder |
| RecursiveMutex.GiveReturnsMutexIff | freertos/source/queue.c:594-606 | after k takes a give hands the mutex back exactly when k is 1 modulo 2^32 |
| RecursiveMutex.TakeCallIs | freertos/source/queue.c:627-662 | the steps of a take made in a row change the mutex as the whole call does, count the take exactly if the caller then holds the mutex, and touch no other task |
| RecursiveMutex.GiveCallIs | freertos/source/queue.c:572-620 | the same of a give, which counts exactly for the holder |
| RecursiveMutex.GiveUndoesTake | freertos/source/queue.c:572-662 | a give undoes the take before it; a stranger can neither take nor give |
| RecursiveMutex.MutexControl.TakeRecursive | freertos/source/queue.c:627-662 | a call that does not wait changes the mutex as its steps in a row do, and succeeds exactly for the one who then holds it |
| RecursiveMutex.MutexControl.GiveRecursive | freertos/source/queue.c:572-620 | the call refines its steps taken in a row, and succeeds exactly for the holder |
| EventGroup.ItemValueUnpacks | freertos/source/event_groups.c:562-586 | the control bits packed into an item value are read back, and the test made on it is prvTestWaitCondition |
| EventGroup.RemainingExactly | freertos/source/event_groups.c:530-621 | the waiters left blocked are exactly those whose condition fails |
| EventGroup.ReleasedExactly | freertos/source/event_groups.c:530-621 | the waiters released are exactly those whose condition holds on old or set, and each is handed that value |
| EventGroup.EachWaiterOnce | freertos/source/event_groups.c:530-621 | no waiter is lost or released twice |
| EventGroup.BitsAfterSet | freertos/source/event_groups.c:588-616 | a bit is left set unless a released waiter had asked for it to be cleared on exit |
| EventGroup.SetBitsIgnoresOrder | freertos/source/event_groups.c:530-621 | the result does not depend on the order of the waiting list |
| EventGroup.SetBitsSettles | freertos/source/event_groups.c:530-621 | after a set no waiter on the list has its condition satisfied, the clearing notwithstanding |
| EventGroup.SyncSettled | freertos/source/event_groups.c:208-321 | nor after a synchronisation, whether the caller blocks or not |
| EventGroup.StepSettled | freertos/source/event_groups.c:208-621 | nor after any other operation or time-out |
| EventGroup.NobodySleepsSatisfied | freertos/source/event_groups.c:208-621 | over every run of set, clear, wait, sync and time-out no task stays blocked with its condition satisfied |
| EventGroup.ReturnsSatisfied | freertos/source/event_groups.c:208-469 | over every run of waits, synchronisations, sets, clears, time-outs and returns: a caller with time that is back before its time ran out was given bits that satisfy what it asked for, and the tasks on the list are exactly the blocked callers, each once, with what it asked for |
| EventGroup.SetWakes | freertos/source/event_groups.c:530-621 | a set wakes exactly the blocked callers whose condition holds on old or set bits, and tells them those |
| EventGroup.SatisfiesMeans | freertos/source/event_groups.c:682-715 | every bit asked for, or some bit asked for, is set |
| EventGroup.EventGroupControl.Set | freertos/source/event_groups.c:530-621 | the walk over the list, items leaving it on the way, refines the function and releases exactly those tasks |
| EventGroup.EventGroupControl.Clear | freertos/source/event_groups.c:472-499 | clears the bits asked for, wakes nobody and returns the value before |
| EventGroup.EventGroupControl.Wait | freertos/source/event_groups.c:324-409 | blocks exactly when the condition fails and there is time, and is then at the end of the list with an item from which bits, clear-on-exit and all or any are read back; else returns the bits before, those waited for cleared exactly if the condition holds and that was asked |
| EventGroup.EventGroupControl.Synchronise | freertos/source/event_groups.c:208-265 | sets; blocks exactly when not all bits waited for are set and there is time; completed, returns old or set bits and clears those waited for; without time, returns the bits left |
| EventGroup.EventGroupControl.AfterBlocking | freertos/source/event_groups.c:422-469 | a woken task returns the bits it was handed; a timed-out one the bits now, those waited for cleared if the condition has come to hold and that was asked |
| Barrier.NobodyLeavesEarly | freertos/source/event_groups.c:208-321 | no party has returned from more rounds than any other has entered |
| Barrier.RoundsAreClean | freertos/source/event_groups.c:208-321 | every value handed over holds the whole mask, and no bit of it is set when a round starts, even if woken tasks have not yet returned |
| Barrier.LastOneOpens | freertos/source/event_groups.c:208-321 | the last to enter releases everybody, itself included, and empties the list |
| Barrier.EnterBlocks | freertos/source/event_groups.c:208-321 | entering with somebody missing blocks and releases nobody |
| Barrier.EnterCompletes | freertos/source/event_groups.c:208-321 | entering as the last releases every party with the mask in its value and leaves the mask clear |
| Barrier.StepKeepsInv | freertos/source/event_groups.c:208-321 | entries, returns and changes to other bits, in any order, keep the barrier's invariant |
| CoRoutine.ExactDelay | freertos/source/croutine.c:201-317 | however actions interleave and the tick count wraps, a delay of d ticks ends exactly d ticks later, or at an event waited for, and not before; once caught up it is never late |
| CoRoutine.EmptyAtWrap | freertos/source/croutine.c:273-283 | when the tick count wraps, the list about to be swapped out is empty |
| CoRoutine.HomesAreExact | freertos/source/croutine.c:144-392 | in every reachable state a generic item is in exactly one list, and an event item is in one at most and then its generic item is in a delay list |
| CoRoutine.StepKeepsInv | freertos/source/croutine.c:144-392 | creation, delay, event, readying, tick, expiry and choice each keep the invariant |
| CoRoutine.PicksHighest | freertos/source/croutine.c:329-343 | the co-routine chosen is ready and of the highest priority that has one, whenever one is ready |
| CoRoutine.PicksInTurn | freertos/source/croutine.c:338-343 | choices in a row take the ready co-routines of that priority in turn |
| CoRoutine.EventWakesHighest | freertos/source/croutine.c:370-392 | an event wakes a waiter of the highest priority |
| CoRoutine.DelayHeld | freertos/source/croutine.c:201-317 | no step but its own expiry, or an event of its own, ends a delay |
| CoRoutine.EventEndsDelay | freertos/source/croutine.c:230-235 | over every run: a co-routine that delays with an event is in the event's list until the event comes with it at the head, which puts it at the end of the pending list, or until exactly the ticks it asked for have passed |
| CoRoutine.DelayJoins | freertos/source/croutine.c:201-236 | such a delay puts the caller in the event's list, the others there keeping their order and all other lists as they were |
| CoRoutine.DrainReadies | freertos/source/croutine.c:239-259 | the next drain of the pending list readies every co-routine whose event has come, before its time |
| CoRoutine.ReadyGoesLast | freertos/source/croutine.c:101-116 | a co-routine made ready is met last of those of its priority, save for the one chosen last |
| CoRoutine.CreatedAsAsked | freertos/source/croutine.c:144-198 | a new co-routine has the priority asked for, or the highest there is, and is ready with it; the one running stays |
| CoRoutine.PassedIsRun | freertos/source/croutine.c:262-317 | a call of prvCheckDelayedList is a run of single steps counting each tick passed |
| CoRoutine.Scheduler.CheckPendingReadyList | freertos/source/croutine.c:239-259 | the loop empties the pending list, each item moved as its step says |
| CoRoutine.Scheduler.ReadyExpired | freertos/source/croutine.c:285-312 | the inner loop readies every item that is due and stops at the first that is not |
| CoRoutine.Scheduler.CheckDelayedList | freertos/source/croutine.c:262-317 | all ticks passed are counted, with the swap at wrap, and the tick count catches up with the kernel's |
| CoRoutine.Scheduler.Schedule | freertos/source/croutine.c:320-347 | drains the pending list, then counts the ticks, then chooses |
| CoRoutine.Scheduler.PickNext | freertos/source/croutine.c:329-340 | the search down the ready lists refines the choice of the highest priority |
| CoRoutine.Scheduler.AddToDelayedList | freertos/source/croutine.c:201-236 | the running co-routine moves to the delay list its wake time needs and, with an event, into that event list and no other |
| CoRoutine.Scheduler.RemoveFromEventList | freertos/source/croutine.c:370-392 | at any time, the delay list caught up or not, the head of the event list moves to the pending list; reports whether it should preempt |
| CoRoutine.Scheduler.Create | freertos/source/croutine.c:144-198 | priorities out of range are cut; the new co-routine is ready |
| Coap.IterationYields | external/coap/coap.c:175-230 | round trip: over any encoded message the k-th call of coap_get_option gives the k-th option's number and value, and after the last number 0 |
| Coap.PayloadYields | external/coap/coap.c:360-397 | round trip: the payload search gives exactly the payload, or none |
| Coap.DecodeHeader | external/coap/coap.c:274-353 | decoding an option header gives back the delta and length it was built from, for all 16-bit values |
| Coap.KnownHeaders | external/coap/coap.c:777-846 | option headers of every extension length, byte for byte |
| Coap.KnownMessage | external/coap/coap.c:405-704 | a whole message, byte for byte |
| Coap.EncodeInjective | external/coap/coap.c:405-704 | no two messages have the same bytes |
| Coap.EncodeAppended | external/coap/coap.c:579-647 | adding an option in number order appends its encoding |
| Coap.TokenComesBack | external/coap/coap.c:532-567 | the token read is the token set, cut to its low tkl bytes |
| Coap.SearchInsideIff | external/coap/coap.c:360-397 | coap_get_payload stays inside a received packet if and only if the packet, from where the search starts, is whole options followed by nothing, a marker, or a complete header with a reserved nibble |
| Coap.TruncatedIff | external/coap/coap.c:274-353 | one call of the option decoder, as coap_get_option makes it, stays inside unless the header is cut off |
| Coap.Pdu.Init | external/coap/coap.c:405-424 | an empty reset message, or an error for a buffer under four bytes |
| Coap.Pdu.SetHeader | external/coap/coap.c:457-524 | changes type, code and message ID and nothing else of the message |
| Coap.Pdu.SetToken | external/coap/coap.c:532-567 | a longer or shorter token leaves code, message ID, options and payload as they were; the three refusals, in order, change nothing |
| Coap.Pdu.GetToken | external/coap/coap.c:152-167 | the token as a little-endian number |
| Coap.Pdu.DecodeOption | external/coap/coap.c:274-353 | refines the decoder on every packet, a header that runs past the end told apart |
| Coap.Pdu.Scan | external/coap/coap.c:594-602 | the insertion search passes every option and stops at the end of them |
| Coap.Pdu.BuildHeader | external/coap/coap.c:777-846 | writes the header of the format with its one- and two-byte extensions, if the room given suffices; otherwise the error return, nothing outside the room touched |
| Coap.Pdu.AddOption | external/coap/coap.c:579-647 | the message gains the option behind the others, a payload moving up, or is unchanged for want of room |
| Coap.Pdu.SetPayload | external/coap/coap.c:655-704 | a message without a payload gains it; on one that has a payload the marker is overwritten and the bytes given follow the options bare; for want of room nothing changes |
| Coap.SetPayloadRightIff | external/coap/coap.c:676-703 | the bytes left are the message with the payload asked for exactly when it had no payload before |
| Coap.SecondPayload | external/coap/coap.c:676-703 | after a second payload the packet holds a message with those options exactly when the bytes given are none or bring their own marker |
| Coap.SecondPayloadNotFound | external/coap/coap.c:360-397 | whatever the bytes, coap_get_payload does not give a second payload back |
| Coap.EncodeInserted | external/coap/coap.c:615-632 | adding an option in number order puts its encoding between the options and the payload |
| Coap.Pdu.GetOption | external/coap/coap.c:175-230 | given the option before, returns the next with its value in place, or number 0 |
| Coap.Pdu.GetOptionByNum | external/coap/coap.c:239-268 | finds the given occurrence of an option, or number 0 when there are fewer; occurrence 255 is never found |
| Coap.Pdu.GetPayload | external/coap/coap.c:360-397 | finds exactly the payload |
| IntBytes.KnownIntegers | external/wakaama/utils.c:624-660 | six integers of both signs, byte for byte |
| IntBytes.IntRoundTrip | external/wakaama/utils.c:544-660 | every 64-bit integer comes back from its bytes |
| IntBytes.ShortestEncoding | external/wakaama/utils.c:624-660 | the encoding is the shortest of 1, 2, 4 or 8 bytes that decode to the value, and the only one of its length |
| IntBytes.EncodeIntInto | external/wakaama/utils.c:624-660 | fills the buffer with the encoding and zeros |
| IntBytes.OpaqueToInt | external/wakaama/utils.c:544-588 | refines the decoder, refusing other lengths |
| IntBytes.CopyValue | external/wakaama/utils.c:526-542 | the reversing copy makes a little-endian host value big-endian |
| Tlv.KnownHeaders | external/wakaama/tlv.c:122-181 | headers of every type and length form, byte for byte |
| Tlv.KnownTree | external/wakaama/tlv.c:389-521 | a tree of a multiple resource and a resource, byte for byte |
| Tlv.KnownInstance | external/wakaama/tlv.c:389-521 | an object instance, byte for byte |
| Tlv.HeaderBack | external/wakaama/tlv.c:122-243 | decoding a created header gives back type, id and length, for every id and every length of up to 24 bits |
| Tlv.ParseSerial | external/wakaama/tlv.c:246-521 | for every tree whose payloads fit in 24 bits parsing what was serialised gives the tree with its leaves as bytes, or nothing if any container is empty |
| Tlv.RoundTripIff | external/wakaama/tlv.c:246-521 | the round trip holds exactly when no container is empty |
| Tlv.LeavesComeBack | external/wakaama/tlv.c:389-521 | of every tree without empty containers every leaf, however deep, comes back after serialising and parsing: texts, opaque and float bytes as they were, booleans as 1 or 0, object links as their two numbers, integers as the same 64-bit value; ids and shape are kept |
| Tlv.SerialLength | external/wakaama/tlv.c:307-387 | the length predicted does not depend on whether entries are resource instances |
| Tlv.GetLength | external/wakaama/tlv.c:307-387 | predicts exactly the bytes serialising takes, or -1 when an entry anywhere has no TLV form |
| Tlv.CreateHeader | external/wakaama/tlv.c:122-181 | writes the header of the format and nothing else; for a length above 24 bits that of an empty payload, the three length bytes left as they were |
| Tlv.Serialize | external/wakaama/tlv.c:389-521 | fills a buffer of exactly the predicted length with the format's bytes; no buffer for an empty or unsupported tree |
| Tlv.DecodeTlv | external/wakaama/tlv.c:183-243 | refines the decoder, refusing bytes that do not hold a whole entry |
| Tlv.ParseTlv | external/wakaama/tlv.c:246-304 | the recursive loop refines the parser, giving everything up on an empty container |
| Transaction.BackOff | external/wakaama/transaction.c:417-451 | in every run the k-th transmission leaves retrans_time at first time + (2^k - 1) timeouts, one timeout more for each 4.01, and k is at most 5 |
| Transaction.GivenUpLate | external/wakaama/transaction.c:440-461 | an unacknowledged transaction is given up when it comes due after its fifth transmission, 31 timeouts after the first at the earliest |
| Transaction.SentAtMost | external/wakaama/transaction.c:440-450 | a message is sent at most five times for each time it was started, 4.01 answers or not |
| Transaction.TriesRunOut | external/wakaama/transaction.c:365-464 | each transmission uses up a try and nothing a peer sends gives one back |
| Transaction.ConcernsIff | external/wakaama/transaction.c:117-142 | over UDP a message concerns a transaction exactly when its peer acknowledges or resets it while unacknowledged, or answers a request with its token |
| Transaction.ExactlyOnce | external/wakaama/transaction.c:265-464 | with unique message IDs, callbacks registered and serialisation successful a callback has been called once when the transaction has left the list, and not while it is there |
| Transaction.StepKeepsInv | external/wakaama/transaction.c:265-464 | starting, sending and receiving keep the list in order, the schedule, and the account of what was started and removed |
| Transaction.RemoveIs | external/wakaama/lwm2m_list.c:67-96 | in a list in order a removal takes out exactly the transaction with the ID |
| Transaction.RemovesTheOneMeantIff | external/wakaama/lwm2m_list.c:67-96 | in a list in order whose IDs may repeat a removal takes out the transaction meant exactly when no earlier one has its ID, else the first that has |
| Transaction.AddKeepsOrder | external/wakaama/lwm2m_list.c:21-44 | adding keeps such a list in order |
| Transaction.TwinRemoved | external/wakaama/transaction.c:265-271 | with two transactions of one message ID the removal of the second takes the first off the list |
| Transaction.StepWakes | external/wakaama/transaction.c:466-510 | whatever timeout comes in, the one a step leaves is past no transaction still in the list, and it only gets shorter or is 1 at most |
| Transaction.EachDueOnce | external/wakaama/transaction.c:474-510 | one call, for every transaction of the list before it: not due, it is as it was; due, it is passed once to the sending rules, and is sent once more and still in the list, or could not be sized and is as it was, or is off the list with its callback called as they say; the order is kept |
| Transaction.StepDealsWithAll | external/wakaama/transaction.c:466-510 | the list and the log after a call are those of dealing with each transaction in turn |
| Transaction.SendingRules | external/wakaama/transaction.c:365-464 | when a transaction is sent and when it ends, and the counter and time it is left with |
| Transaction.Reactions | external/wakaama/transaction.c:117-142 | what a message from its peer does to a transaction: answered, reset, denied, acknowledged, or nothing |
| Transaction.SeparateResponse | external/wakaama/transaction.c:335-352 | an acknowledged request waits for its separate response as long as asked, or 2 seconds for each try and one more, is then given up, and is never sent again |
| Transaction.ReceiveDeals | external/wakaama/transaction.c:273-363 | the first transaction a message concerns is updated, or called and taken out; the others stay, in order |
| Transaction.Client.ListRm | external/wakaama/lwm2m_list.c:67-96 | the loop refines the removal |
| Transaction.Client.Attempt | external/wakaama/transaction.c:417-461 | whether to transmit, the next time, and whether to end |
| Transaction.Client.SendTransaction | external/wakaama/transaction.c:365-464 | refines the step: serialising errors, transmission, giving up |
| Transaction.Client.Consider | external/wakaama/transaction.c:289-357 | what a message means for one transaction: ignored, acknowledged, postponed by 4.01, or answered |
| Transaction.Client.HandleResponse | external/wakaama/transaction.c:273-363 | the first transaction concerned, and no other, is changed or removed |
| Transaction.Client.Step | external/wakaama/transaction.c:466-510 | deals with every transaction of the list before it once, in order, as EachDueOnce says, and keeps the timeout short enough, whatever it was |
| Block1.StoreIsConcatenation | external/wakaama/block1.c:52-140 | over any sequence of calls the stored buffer is block 0 followed by the blocks accepted since |
| Block1.AnswersAre | external/wakaama/block1.c:52-140 | when a block is answered 2.31, 4.08, 4.13 or with the body, in terms of what is stored and what it asks for, an empty store included |
| Block1.RefusedChangesNothing | external/wakaama/block1.c:96-112 | a block refused with 4.08 or 4.13, or carrying the last message ID, leaves the store unchanged |
| Block1.SizeLimited | external/wakaama/block1.c:109-112 | a stored buffer of 4096 bytes or more is a block 0 by itself: no append makes it so long |
| Block1.DeliverOne | external/wakaama/block1.c:52-140 | delivering any block of a transfer, in or out of turn, leads to a whole number of its blocks, with the answer that calls for |
| Block1.OnlyTheBody | external/wakaama/block1.c:126-139 | whatever is lost, repeated or out of order, a body given out is the body sent |
| Block1.OtherTakenIff | external/wakaama/block1.c:85-112 | a block of another upload is taken exactly when it asks for the length held, in another message, and stays under the limit |
| Block1.OnlyTheBodyAmong | external/wakaama/block1.c:52-140 | mixed with blocks of other uploads that ask for no length of this one, a body given out for its block is still the body sent |
| Block1.SpoiltBody | external/wakaama/block1.c:52-140 | once a block of another upload has been taken for block k, whatever other blocks of the transfer come: a body given out has it in place of block k, so it differs from the body sent exactly when the block does |
| Block1.SpoiltCompletes | external/wakaama/block1.c:52-140 | and if the rest comes in order such a body is given out |
| Block1.TwoUploadsMix | external/wakaama/block1.c:52-140 | two uploads of two blocks of one size: block 0 of one and block 1 of the other are given out as one body |
| Block1.CompletesIff | external/wakaama/block1.c:52-140 | the last block completes an upload exactly when, since block 0 last came, the blocks have arrived in order and the body is under the limit |
| Block1.InOrderCompletes | external/wakaama/block1.c:52-140 | an in-order transfer under the limit with repeated blocks gives the body, if block 0 does not come again once another has |
| Block1.LateRepeatRestarts | external/wakaama/block1.c:64-107 | a late repeat of block 0 starts over, and the upload then fails: deliveries 0, 1, 0, 2 |
| Block1.Server.Handle | external/wakaama/block1.c:52-140 | the handler refines the functions, replacing the buffer |
| DecimalText.TextRoundTrip | external/wakaama/utils.c:56-211 | every 64-bit value but the least comes back from its text |
| DecimalText.RoomEnough | external/wakaama/utils.c:165-211 | 21 bytes are room enough for every such value |
| DecimalText.ValueOfDigits | external/wakaama/utils.c:184-190 | the digits written stand for the number |
| DecimalText.KnownTexts | external/wakaama/utils.c:165-211 | three numbers, digit for digit |
| DecimalText.ParseExact | external/wakaama/utils.c:56-99 | if no leading part of the digits is from 2^64 to 2^64 + 3, the reader accepts exactly the texts of a sign, at least one digit and a value in 64 bits, with that value, unless the text is a lone sign or the least number |
| DecimalText.ParseRightIff | external/wakaama/utils.c:56-99 | for every text the reader is right exactly unless it is a lone sign or the least number, or such a part occurs and the digits reduced by it stand for a number in range |
| DecimalText.ReducedReadsAlike | external/wakaama/utils.c:72-87 | the reader cannot tell digits from their reduced form, each part that slips cut to one digit, and nothing slips in that form |
| DecimalText.SlipReplaced | external/wakaama/utils.c:76-78 | past such a part the reader goes on as if the digits so far had been one digit |
| DecimalText.ReadsTwoTo64AsZero | external/wakaama/utils.c:76-78 | the twenty digits of 2^64 are read as 0 |
| DecimalText.ReadsMinusAsZero | external/wakaama/utils.c:66-70 | a sign with no digits is read as 0 |
| DecimalText.RefusesLeast | external/wakaama/utils.c:87-97 | the least 64-bit number is refused |
| DecimalText.WritesOutsideIff | external/wakaama/utils.c:183-202 | a byte goes before the buffer exactly when the buffer is empty or has room for just the digits of a negative number |
| DecimalText.MinusOneInOneByte | external/wakaama/utils.c:192-196 | minus one in one byte: the sign goes to index -1 |
| DecimalText.ShortNeverSlips | external/wakaama/utils.c:76-78 | nineteen digits or fewer are never misread |
| DecimalText.IntToText | external/wakaama/utils.c:165-211 | for any buffer, the result and bytes; without a write before the buffer it succeeds exactly when the room suffices (for a negative number one byte more than its text), and then the text is at the start of the buffer |
| DecimalText.PlainTextToInt64 | external/wakaama/utils.c:56-99 | the accumulating loop refines the reader |

## Left out

- tasks.c is not part of this model: placing a task on an event list, taking off its head, time-outs and resuming are single steps, and priority inheritance, yields and tracing do not appear.
- Usage rules the theorems take as given: set members read only when selected and never overwritten, delays of at least one tick (crDELAY and the queue calls ask for no other), no reset of a queue in use.
- QueueLock.NoLostWakeUp: overwriting is modelled for items with bytes; overwriting a full queue of items of no bytes, a binary semaphore, counts one too many (QueueStorage.Storage.CopyDataToQueue) and is not an action of the protocol.
- RecursiveMutex.MutexControl.TakeRecursive: with no time to wait, so a take that cannot succeed at once fails; waiting is an action of the step model.
- Waiting for a queue set itself: the set is a queue like any other to QueueLock, and QueueSet follows only its handles; a set's members do not change during a run, and xQueueRemoveFromSet is left out.
- KernelList.Remove: which place the item has on the cycle is given to the proof by the caller; the code does not need it.
- QueueStorage.Storage.TrySend: copies and counts only; blocking is in QueueLock.
- Event bits are sets of bit positions, not 32-bit words; xEventGroupDelete and the deferred calls from interrupts are left out.
- CoRoutine.Scheduler.Schedule: the co-routine chosen is not called; what it may do is the next action.
- Co-routine lists are sequences and rings here; that the linked lists behave so is KernelList. Allocation of control blocks is taken to succeed.
- Coap.Pdu.AddOption: options are added in number order; insertion below an existing number with coap_adjust_option_deltas is left out.
- Coap.Pdu.DecodeOption: where a header runs past the packet the code reads bytes that are not the packet's; the model stops there. coap_validate_pkt is left out.
- Coap.Pdu.GetOption: of what it returns after the last option only the number is modelled; with a payload present the code computes the rest from a null pointer.
- Tlv.Serialize: for a payload over 24 bits, whose header has bytes the code never writes, only the length is stated. Lengths are not bounded by int.
- EventGroup.EventGroupControl.Set: the value the call returns is read after the scheduler has resumed, when others may have changed it, and is not modelled.
- CoRoutine.Scheduler.AddToDelayedList: for delays of at least one tick, as all its callers ask for.
- Floats are taken as the four or eight bytes utils_encodeFloat makes of them; the arithmetic of float text, JSON and base64 are left out.
- DecimalText.IntToText: the least 64-bit value is excluded, because negating it overflows in the code. Bytes written before the buffer are reported, not stored.
- Transactions are records in a sequence, so a pointer to one that has been freed cannot be expressed; callbacks do not start or remove transactions; the clock and the outcome of serialising are parameters; transaction_new, the acknowledgement sent back for a separate response, and er-coap-13.c are left out.
- Allocation failure everywhere, and the queue registry, are left out.
- Hardware drivers, TLS wrappers, command line and object callbacks: plumbing and flat switches.
