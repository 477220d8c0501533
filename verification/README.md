# A verified model of the QDMA driver core

This project models the bookkeeping core of a Linux driver for a multi-queue PCIe DMA engine and proves what
it keeps: descriptor rings and their credits, the receive path, the queue table and queue life cycle, the
mailbox and queue ranges of physical and virtual functions, and the queue contexts. `dafny verify
dfyconfig.toml` checks all of it. Nothing of the driver is executed.

## Layout

| file | content |
|---|---|
| `Common.dfy` | optional values, error numbers, sums |
| `SgList.dfy`, `Ring.dfy` | scatter-gather lists, their split into descriptors, the resume search; wrap-around index arithmetic |
| `Queue.dfy`, `Descq.dfy` | a memory-mapped (MM) or streaming host-to-card (ST H2C) queue as a value, and as the object the driver changes in place |
| `QueueRun.dfy`, `QueueTheorems.dfy`, `QueueExamples.dfy` | every run of submitters, worker, hardware and writeback service; its invariant, the main theorems, and runs that show where a promise ends |
| `Payload.dfy`, `WorkList.dfy`, `UserBuffer.dfy` | one request over any number of passes; one pass over any requests; a user buffer cut into pages |
| `Rx.dfy`, `C2h.dfy`, `C2hRun.dfy`, `C2hErrors.dfy`, `C2hReads.dfy`, `C2hDescq.dfy` | streaming card-to-host (ST C2H): read, service routine, every run, entries in error, reads between the pages of a batch, the arrays changed in place |
| `QueueTable.dfy`, `Lifecycle.dfy` | reservations and slots under interleaving; add, start, stop, remove |
| `Fmap.dfy`, `Mailbox.dfy` | hardware queue ranges; the message exchange |
| `Context.dfy`, `ContextStore.dfy` | packed context words; the indirect command window |

Each routine that changes state step by step is a method of a class and is proved equal to a function on values
(`Value() == F(old(Value()))`). The theorems are about those functions and about all runs built from them.

## How the system is modelled

- A run is any interleaving of lock-delimited driver sections with hardware steps. A worker pass is one step
  because the queue lock is held throughout it; descriptors fetched during a pass could as well be fetched
  right after it, since a pass only writes slots in front of the fetch position. A C2H service call is one
  step too, although it holds the lock of the receive queue for a page at a time: `ReadsBetweenPages` shows
  that reads in between could as well come right after it.
- The hardware fetches descriptors in ring order and reports, at any time, how far it has come. For reception
  it fills posted pages in order and leaves one writeback entry per packet.
- Ring sizes, request counts, element counts and table sizes are unbounded. Widths are written out where they
  decide something: 32- and 64-bit arithmetic in the user-buffer code, bit-vectors in packed words. The byte
  count of a request is below 2^32, as its type demands. A page has 4096 bytes.
- Descriptor ring and C2H writeback ring have the same size, as the queue configuration sets them
  (libqdma/qdma_descq.c:1186-1193).
- Allocation, context programming, commands and mailbox handlers may fail at any point; each such outcome is a
  parameter. Clocks are absent: a timeout is a step that may happen.
- A virtual function's mailbox is modelled together with the table and the registers that its messages change,
  and with the messages of other virtual functions handled in between.
- Clearing a queue's contexts on stop is taken to succeed in `Lifecycle`; `ContextStore` has the failing case.

## Where the code does less than it seems to promise

Each of these is kept as the code has it. The first name is the exact condition under which the promise is met,
the second, where there is one, an input on which it is not.

- A pass that stops inside a scatter-gather element starts that element again, because the callers zero the
  found offset before using it: `ExactlyOnceExact`, `BigElementRepeats`.
- A second pass of an MM request starts again at its first endpoint address: `EndpointExact`,
  `SecondPassMisplaced`.
- A caller that times out takes its request off the list and leaves its descriptors uncounted, so a later
  writeback completes the next request too early: `TimeoutExact` and `TimeoutCompletesNext`,
  `TimeoutCompletesWrongRequest`.
- The writeback service returns early when it finds no news, so credit can stay beside a pending request:
  `CreditSpent`, `CreditBesidePending`.
- A writeback entry with the error bit ends the batch before the producer index is stored, and every later
  service call ends at the same entry: `ErrorReached` and `ErrorFreezes`, `ErrorRun`.
- Readers are woken when the total, not the addition, covers what they were short of, and bytes that a woken
  reader has not taken yet are counted for the next one: `WakeExact`, `WokenForNothing` and `WokenOnceMore`.
- A request whose elements do not add up to its byte count is given up with its descriptors in the ring:
  `CountExact` and `FailExact`, `WrongCountLeaks`.
- Freeing the freelist stops at its first empty slot, and a failed refill makes one: `FreeExact`,
  `FailedRefillExact`.
- A user buffer of 2^32 bytes or more is never covered, and an empty buffer inside a page gets one empty
  element: `MapExact` of `UserBuffer`, `TooLong`, `EmptyBuffer`.
- An add can be refused beside a free slot when removes interleave: `ScanExact`, `AddRefusedBesideFreeSlot`.
- Removing an online queue clears its flags first, so it stays on the worker's list and programmed in the
  hardware: `DetachedExact`, `RemovedButListed`.
- Every start that gets its buffers reserves an interrupt vector, and only a removal releases one:
  `VectorsExact`, `StopLeaksVector` and `RemoveTakesVector`.
- A stop unlinks the list entry of a queue that is not running; doing it again follows a poisoned link:
  `StopTwiceExact`, `StopTwiceCrashes`. A start of a queue that was removed while online links an entry that
  is still on a list: `RelistExact`, `RelistCrashes`.
- Physical functions with different queue counts can overlap: `PfRangesExact`.
- A base or a count asked for by a virtual function is granted unseen, and a base that does not fit the register
  spills into the count: `NamedBaseExact`, `DefaultBaseExact` and `PackRangeExact`, `ChosenBaseOverlaps` and
  `PackedElsewhere`.
- What the table routines return for HELLO and FMAP is dropped, so a function that the table does not know is
  answered with a good status: `AnswersExact` with `MapExact` and `HelloExact` of `Fmap`, `GoodButUnknown` and
  `MapBeforeHello`.
- The mailbox status is not reset between the messages of one drain, so a good request after a bad one is
  answered as bad: `ReplyStatusExact`, `GoodAfterBad`.

## Model

| member | source | states |
|---|---|---|
| QueueTheorems.CompletionExact | libqdma/qdma_descq.c:538-570 | in every run, after every writeback, the finished requests are exactly those whose last descriptor the hardware has reported, each once, in submission order, with full byte count and no error |
| QueueTheorems.PayloadExactlyOnce | libqdma/qdma_descq.c:458-530 | in every state of every run, what the hardware fetched is a prefix of all submitted elements in order, and it covers every finished request |
| QueueTheorems.CreditConserved | libqdma/qdma_descq.c:413-422 | in every state of every run, `desc_nr` summed over both lists is ring occupancy plus stored credit; when the ring is drained nothing is pending and the credit is what is programmed of the half-programmed head |
| QueueTheorems.CreditSpent | libqdma/qdma_descq.c:545-567 | a writeback with news leaves no credit beside a pending request; one without changes nothing |
| QueueExamples.CreditBesidePending | libqdma/qdma_descq.c:700-712 | for every two-element request, a run on a two-slot ring that ends, after a writeback without news, with credit 1 beside the pending request |
| QueueTheorems.RingSafety | libqdma/qdma_descq.c:666-684 | in every state of every run the indices are in the ring, `avail` is what they imply with one slot kept free (so equal indices mean empty), and the fetch index lies between them |
| QueueTheorems.WorkerPassExact | libqdma/qdma_thread.c:58-79 | in every run a worker pass ends without free slots or without work, overwrites no slot the hardware owns, and leaves at most the head of the work list half programmed |
| WorkList.PassVisitsAll | libqdma/qdma_thread.c:66-76 | for any requests, well formed or not, a pass ends with no slot left or with every waiting request visited in order: those handed on, given up and left waiting are exactly those that the visit of each by itself says |
| WorkList.VisitExact | libqdma/qdma_descq.c:334-411 | with non-empty elements a request is given up if and only if all its elements are programmed already, or it has none and the queue is MM; the caller sees -EINVAL or -EIO, a callback always -EINVAL |
| QueueTheorems.RoundsExact | libqdma/qdma_descq.c:720-728 | `n` rounds of worker pass, full drain and writeback finish all requests if and only if `n * (rngsz - 1)` covers the unobserved descriptors |
| QueueTheorems.RoundExists | libqdma/qdma_thread.c:58-102 | from every reachable state such a round exists, so the bound is not empty |
| QueueTheorems.TimeoutExact | libqdma/libqdma_export.c:625-630 | in every reachable state, unlinking a timed-out request keeps the credit balance if and only if nothing was programmed for it; then the rest of the invariant is kept too |
| QueueTheorems.UnlinkExact | libqdma/libqdma_export.c:625-630 | the request that leaves is the one at its place; all others keep their order, their list and their state |
| QueueTheorems.TimeoutCompletesNext | libqdma/qdma_descq.c:545-567 | in every reachable state, when the first pending caller times out, the next writeback completes the second if and only if its news covers that one alone, while the hardware has finished it only if the news covers both |
| QueueTheorems.FailExact | libqdma/qdma_thread.c:68-72 | giving up a request keeps the credit balance if and only if nothing was programmed for it |
| QueueExamples.WrongCountLeaks | libqdma/qdma_thread.c:68-72 | for every one-element request with a wrong count, two worker passes that leave its descriptor uncounted |
| QueueExamples.TimeoutCompletesWrongRequest | libqdma/libqdma_export.c:619-630 | a run of two one-element requests, on any ring of three or more slots, after which a timeout of the first makes the writeback complete the second, which the hardware has not finished |
| QueueRun.TraceInv | libqdma/qdma_descq.c:302-570 | every step of every run keeps the invariant tying wrapped indices, lists, credit and ring contents to absolute positions |
| QueueRun.WorkerInv | libqdma/qdma_thread.c:58-79 | a worker pass programs exactly as many further descriptors as there are free slots or elements left, and keeps the invariant |
| QueueRun.HeadPass | libqdma/qdma_descq.c:476-530 | a pass over a half-programmed request emits exactly its next elements, and the byte total reaches `count` exactly at the last element |
| QueueRun.SpendExact | libqdma/qdma_descq.c:545-567 | spending credit finishes exactly the pending requests that end at or below the observed position and charges the rest to the next one |
| QueueRun.ServiceInv | libqdma/qdma_descq.c:686-747 | a writeback brings the observed position to the reported one, from wrapped indices alone |
| QueueRun.LeaveInv | libqdma/libqdma_export.c:625-630 | a caller of which nothing is programmed may leave at any time without disturbing the others |
| QueueTheorems.InBoundsInv | libqdma/qdma_descq.c:388-393 | the index bounds that guard every modelled step hold in every reachable state, so no run is cut off |
| SgList.SplitCovers | libqdma/qdma_descq.c:351-399 | the pieces cover the same bytes in the same order and each fits one descriptor |
| SgList.SplitSmall | libqdma/qdma_descq.c:476-519 | elements that fit get one descriptor each |
| SgList.SgtFindOffset | libqdma/xdev.c:503-526 | the search loop computes the resume function |
| SgList.FindMeans | libqdma/xdev.c:510-525 | every position inside the list is found; the reported remainder is what is left of the element, and 0 exactly at a boundary |
| SgList.FindBoundary | libqdma/xdev.c:514-517 | from the end of any prefix the next element is found |
| Ring.SlotDist | libqdma/qdma_descq.c:666-684 | positions less than a turn apart are told apart by their slots, and the wrapped difference is their distance |
| Ring.SlotIsMod | libqdma/qdma_descq.c:388-393 | stepping with reset at the end is the position modulo the ring size |
| Ring.StoreExtends | libqdma/qdma_descq.c:506-511 | writing behind a window of fewer than `rngsz` items keeps and extends the window across the wrap |
| Payload.ProcIsPass | libqdma/qdma_descq.c:1276-1285 | a pass on one request is what the queue routine does to the head of the work list, and the descriptors it adds are what is stored from the producer index on |
| Payload.ExactlyOnceExact | libqdma/qdma_descq.c:476-530 | for all ways the ring can fill, the descriptors are the pieces of the request in order with no gap or repeat and it moves exactly when complete: if and only if each element fits one descriptor |
| Payload.BigElementRepeats | libqdma/xdev.c:514-521 | every request with a larger element has a filling that repeats bytes |
| Payload.CountExact | libqdma/qdma_descq.c:413-422 | for any non-empty elements programmed in one pass, the request is handed on if and only if they add up to its count; otherwise the next pass gives it up |
| Payload.MmFirstPass | libqdma/qdma_descq.c:351-415 | for any non-empty elements a first pass tiles `[ep_addr, ep_addr + data_cnt)`, covers the first bytes of the list, keeps lengths below 2^28, and sets SOP only on the first and EOP only on the last descriptor |
| Payload.StreamMarks | libqdma/qdma_descq.c:487-492 | a streaming descriptor names its piece and carries both packet flags |
| Payload.EndpointExact | libqdma/qdma_descq.c:317-317 | for elements of any length, the endpoint addresses of all passes tile the range if and only if one pass did it all |
| Payload.SecondPassMisplaced | libqdma/qdma_descq.c:317-317 | whatever follows, a second pass puts a descriptor at the request's base address again |
| Payload.FlagLenDecodes | libqdma/qdma_regs.h:388-390 | length and flags are read back separately if and only if the length is below 2^28 |
| Descq.DescQueue.constructor | libqdma/qdma_descq.c:1180-1196 | the configured queue is the initial value |
| Descq.DescQueue.SubmitReq | libqdma/libqdma_export.c:576-612 | a request is appended if and only if the queue is online and the request writes exactly when the queue is not MM C2H; otherwise it is refused with -EINVAL and nothing changes |
| Descq.DescQueue.FillStream | libqdma/qdma_descq.c:474-519 | the two nested loops store, from the producer index on and across the wrap, exactly the first `avail` pieces |
| Descq.DescQueue.FillMapped | libqdma/qdma_descq.c:348-411 | likewise for MM, with endpoint addresses and the flags on first and last descriptor |
| Descq.DescQueue.ProcRequest | libqdma/qdma_descq.c:309-530 | return code and new queue, including full ring, bad offset and empty list; an error changes nothing |
| Descq.DescQueue.RunWorker | libqdma/qdma_thread.c:58-79 | the walk over the work list, with failed requests completed with their error, is the worker-pass function |
| Descq.DescQueue.UpdatePend | libqdma/qdma_descq.c:538-570 | the loop over the pending list is the spending function |
| Descq.DescQueue.ServiceWb | libqdma/qdma_descq.c:686-747 | the writeback routine is the writeback function |
| Descq.DescQueue.UnlinkReq | libqdma/libqdma_export.c:625-630 | a timed-out request leaves whichever list it is on |
| UserBuffer.MapUserBuf | drv/cdev.c:132-198 | page count, refusal of a zero count, and the element loop with the 32-bit cut of the remaining length |
| UserBuffer.PagesNrExact | drv/cdev.c:134-139 | the page count is the number of pages touched, for every address including those near 2^64 |
| UserBuffer.MapExact | drv/cdev.c:132-198 | the call succeeds with elements that are non-empty, at most a page and lie end to end over the buffer if and only if 0 < len < 2^32; below 2^32 it is refused exactly for an empty page-aligned buffer |
| UserBuffer.TooLong | drv/cdev.c:186-196 | 2^32 bytes of a longer buffer are never covered |
| UserBuffer.EmptyBuffer | drv/cdev.c:134-139 | an empty buffer inside a page counts one page |
| UserBuffer.UserRequestWellFormed | drv/cdev.c:185-198 | every non-empty buffer below 2^32 meets the hypotheses of the queue theorems |
| Rx.DropStream | libqdma/qdma_descq.c:1080-1177 | dropping `n` bytes of the fragments is dropping `n` bytes of the stream |
| Rx.DropAdd | libqdma/qdma_descq.c:1080-1177 | reading in two goes is reading in one, for what remains and for the pages given back |
| Rx.DropPages | libqdma/qdma_descq.c:1080-1177 | each page is given back or still queued, once and in order |
| Rx.RxQueue.DequeueHead | libqdma/qdma_descq.c:185-198 | unlinks the head of the linked list; head, tail, links and cached byte count stay consistent, also when the list becomes empty |
| Rx.RxQueue.EnqueueHead | libqdma/qdma_descq.c:200-208 | links an entry in front, also into an empty list, with the same consistency |
| Rx.RxQueue.EnqueueTail | libqdma/qdma_descq.c:210-221 | links an entry behind the tail, also into an empty list, with the same consistency |
| Rx.RxQueue.FillBuffer | libqdma/qdma_descq.c:1092-1163 | one buffer is filled from the front of the stream until it is full or the stream is empty |
| Rx.RxQueue.FillBuffers | libqdma/qdma_descq.c:1091-1168 | the loop over the buffers: all but the last used one are full, and the stream is followed without gap |
| Rx.RxQueue.Read | libqdma/qdma_descq.c:1068-1178 | exactly the first min(total length, `dlen`) bytes are copied in order without holes; exactly the rest stays, a part-read head in front; used-up pages are freed |
| Rx.RxQueue.FreeAll | libqdma/qdma_descq.c:260-269 | every queued page is freed once, in order |
| C2h.TakePageOwned | libqdma/qdma_descq.c:271-297 | handing a page to the reader and refilling its slot keeps one owner per page |
| C2h.ReadOwned | libqdma/qdma_descq.c:1068-1178 | so does a read |
| C2h.TeardownFreesAll | libqdma/qdma_descq.c:1025-1066 | teardown frees each allocated page exactly once |
| C2h.TakePageConserves | libqdma/qdma_descq.c:859-886 | taking a page moves its bytes from the posted pages to the end of the queue |
| C2hRun.PageLensExact | libqdma/qdma_descq.c:859-886 | a packet of `len` bytes fills ceil(len / PAGE_SIZE) pages that add up to `len` |
| C2hRun.DmaConserves | libqdma/qdma_descq.c:859-886 | a packet written into posted pages disturbs no queued or pending byte |
| C2hRun.TakeEntriesConserves | libqdma/qdma_descq.c:838-890 | a batch of entries is taken in order, each with all its pages |
| C2hRun.TraceInv | libqdma/qdma_descq.c:791-919 | every step of every error-free run of delivery, report, service and read keeps the receive invariant |
| C2hRun.InvInBounds | libqdma/qdma_descq.c:749-759 | the bounds that guard every modelled step hold in every reachable state, so no run is cut off |
| C2hRun.StreamConserved | libqdma/qdma_descq.c:791-900 | in every state of every error-free run, bytes read followed by bytes queued are exactly the bytes of the packets taken, in order; every page has one owner, every freelist slot is populated and posted |
| C2hRun.ServiceExact | libqdma/qdma_descq.c:791-900 | after a service call of an error-free run the indices agree, each reported packet has become its page fragments, and `pidx` has moved by the page count modulo the ring size |
| C2hReads.ReadsBetweenPages | libqdma/qdma_descq.c:859-886 | however reads fall between the pages of a service call, it ends as if it had run alone and one read of all their bytes had followed, and the readers get the same bytes |
| C2hReads.ReadsLast | libqdma/qdma_descq.c:271-297 | any sequence of queued pages and reads equals the pages followed by one read |
| C2hErrors.TeardownExact | libqdma/qdma_descq.c:1025-1066 | in every state of every run, with entries in error too, the guards of all steps hold, every page has one owner, and teardown frees every page ever allocated exactly once over the whole run |
| C2hDescq.RxRing.constructor | libqdma/qdma_descq.c:963-1010 | the freelist as its fill routine leaves it, posted to the descriptors, is the start of a run |
| C2hDescq.RxRing.TakePages | libqdma/qdma_descq.c:859-886 | the page loop of one entry |
| C2hDescq.RxRing.NextEntry | libqdma/qdma_descq.c:749-759 | the entry address stays at index times entry size across the wrap |
| C2hDescq.RxRing.ServiceWriteback | libqdma/qdma_descq.c:791-919 | the batch loop is the service function, and reports failure exactly when an entry has the error bit |
| C2hErrors.ErrorEntryExact | libqdma/qdma_descq.c:853-897 | after an entry in error the producer index is right if and only if the packets before it in the batch were empty |
| C2hErrors.ErrorReached | libqdma/qdma_descq.c:853-897 | in every state reached without errors, when an entry in error is posted and reported, the service call stops at it and its producer index is where the hardware stands if and only if the packets before it in the batch were empty |
| C2hErrors.ErrorRun | libqdma/qdma_descq.c:853-897 | a run of one packet and an entry in error that ends with a wrong producer index |
| C2hErrors.ErrorNeverPassed | libqdma/qdma_descq.c:838-890 | in every run, once an entry in error is posted, at most the entries before it are ever taken, whatever else happens |
| C2hErrors.ErrorFreezes | libqdma/qdma_descq.c:838-900 | in every run, once that entry is reached, indices, freelist and descriptors never change again and readers get only what was queued |
| C2hDescq.FreeExact | libqdma/qdma_descq.c:95-118 | freeing reaches every page if and only if no page lies behind an empty slot |
| C2hDescq.FailedRefillExact | libqdma/qdma_descq.c:873-877 | after a refill that fails at slot `p` of a full freelist, freeing reaches `p` pages of the `rngsz - 1` left, so none is leaked if and only if it was the last slot |
| C2hDescq.Freelist.Refill | libqdma/qdma_descq.c:120-147 | the slot gets a new page, or is left empty |
| C2hDescq.Freelist.Free | libqdma/qdma_descq.c:95-118 | frees the pages before the first empty slot |
| C2hDescq.Freelist.Fill | libqdma/qdma_descq.c:149-182 | every slot gets its own page, or every page allocated is freed again |
| C2hDescq.CheckCompleted | libqdma/qdma_descq.c:761-789 | the loop over waiting readers |
| C2hDescq.WokenExact | libqdma/qdma_descq.c:761-789 | it completes the longest run of readers whose shortages the byte count covers |
| C2hDescq.WakeExact | libqdma/libqdma_export.c:38-100 | for any list of waiting readers and any bytes owed to readers woken before, at every byte count those woken all find their bytes if and only if nobody waits, or nothing is owed and nothing was there when any of them came; readers that find all they want at once are not counted in |
| C2hDescq.WokenForNothing | libqdma/qdma_descq.c:761-789 | two readers of which the second, who found nothing, is woken and gets nothing |
| C2hDescq.WokenOnceMore | libqdma/qdma_descq.c:761-789 | two readers that found nothing, woken by two calls before the first has read, of which the second is short |
| QueueTable.ReservationsConserved | libqdma/libqdma_export.c:363-438 | in every interleaving the counter is enabled slots plus adds without slot plus removes not yet counted, never above `qmax`, and no queue has two holders |
| QueueTable.AddsAlwaysFit | libqdma/libqdma_export.c:400-420 | while nobody removes, no granted add ever runs past the last slot |
| QueueTable.ReservedSlotIsFree | libqdma/libqdma_export.c:410-420 | in every reachable table, while an add has its reservation and no slot, some slot is free: the branch for a full table is never taken on a full table |
| QueueTable.ScanExact | libqdma/libqdma_export.c:400-420 | from every reachable table an undisturbed scan takes the first free slot before it, and is refused if and only if every free slot lies behind it |
| QueueTable.NamedAddExact | libqdma/libqdma_export.c:421-438 | an add that names a slot is refused if and only if the table is fully reserved, there is no such slot, or it finds the slot taken, each with its code |
| QueueTable.NamedAddRun | libqdma/libqdma_export.c:363-438 | in every interleaving an add that names a slot ends holding that slot or refused, and never elsewhere |
| QueueTable.AddRefusedBesideFreeSlot | libqdma/libqdma_export.c:410-420 | a run of three threads in which an add is refused beside a free slot |
| QueueTable.CountTrueFull | libqdma/libqdma_export.c:400-420 | a table with a count below its size has a free slot, and conversely |
| QueueTable.Slots.QueueAdd | libqdma/libqdma_export.c:363-465 | sequentially it succeeds exactly when a fitting slot is free, takes the wanted or first free one, cannot reach the "full" branch, and a failure leaves the table unchanged |
| QueueTable.Slots.QueueRemove | libqdma/libqdma_export.c:211-237 | the slot is given back, the counter stays exact, a bad handle changes nothing |
| QueueTable.LookupExact | libqdma/qdma_device.c:243-291 | a handle resolves to a direction and index if and only if it is the one built for them and, where asked, the queue is enabled; exactly the handles below 2 * qmax are in range |
| Lifecycle.RunOk | libqdma/libqdma_export.c:468-563 | after every sequence of calls, receptions and reads, whatever fails, online implies inited implies enabled, the buffers exist exactly while inited, and no buffer or received page is leaked or freed twice |
| Lifecycle.CallsExact | libqdma/libqdma_export.c:468-563 | in every reachable state, what start, stop, remove and add bring about, and the code for each way of failing; a failed start leaves flags and lists as they were |
| Lifecycle.DetachedExact | libqdma/libqdma_export.c:221-230 | a call keeps the queue off the lists and out of the hardware when not online if and only if it is not the removal of an online queue |
| Lifecycle.RunDetached | libqdma/libqdma_export.c:535-563 | so runs that stop before removing keep it |
| Lifecycle.RemovedButListed | libqdma/libqdma_export.c:221-230 | add, start, remove does not |
| Lifecycle.VectorsExact | libqdma/qdma_descq.c:624-664 | for every life from add to remove, the vector counts return to what they were if and only if exactly one start got its buffers, or none did and the count lowered regardless was zero; every further start leaks one |
| Lifecycle.VectorTaken | libqdma/qdma_descq.c:638-664 | a reservation goes to the first of the least used vectors and raises its count by one |
| Lifecycle.StaysEven | libqdma/qdma_descq.c:638-664 | vectors that differ by at most one queue still do after any calls other than removals |
| Lifecycle.StopLeaksVector | libqdma/qdma_descq.c:1015-1017 | started and stopped twice, a removed queue leaves the count at 1 |
| Lifecycle.RemoveTakesVector | libqdma/qdma_descq.c:956-956 | never started, a removed queue lowers the count of another |
| Lifecycle.StopTwiceExact | libqdma/qdma_thread.c:105-141 | after a harmless stop a second one crashes if and only if interrupts are used, the queue was not running, or it was stopped idle before |
| Lifecycle.StopTwiceCrashes | libqdma/qdma_thread.c:105-141 | start, stop, stop with interrupts does |
| Lifecycle.RelistExact | libqdma/qdma_thread.c:164-168 | a successful start links an entry that is already on the worker list if and only if the queue was still listed |
| Lifecycle.RelistCrashes | libqdma/qdma_thread.c:164-168 | add, start, remove, add, start does |
| Lifecycle.RunNeverCrashes | libqdma/qdma_thread.c:105-195 | runs that stop only online queues and remove only others never unlink or link an entry twice |
| Lifecycle.Queue.AllocIrq | libqdma/qdma_descq.c:638-664 | the scan with its early exit makes that reservation |
| Lifecycle.Queue.JoinThreads | libqdma/qdma_thread.c:143-195 | the queue is put on the worker list, and on a vector list unless polled; being on it already is noticed |
| Lifecycle.Queue.LeaveThreads | libqdma/qdma_thread.c:105-141 | the queue leaves the worker list; without a polling thread its vector-list entry is unlinked whether linked or not |
| Lifecycle.Queue.FreeBuffers | libqdma/qdma_descq.c:1025-1066 | the three buffers and the received pages are freed and forgotten |
| Lifecycle.Queue.AllocBuffers | libqdma/qdma_descq.c:963-1023 | a failure at any allocation frees the earlier ones; a success reserves a vector |
| Lifecycle.Queue.Start | libqdma/libqdma_export.c:468-533 | return code and new state for every combination of failures |
| Lifecycle.Queue.Stop | libqdma/libqdma_export.c:535-563 | return code and new state |
| Lifecycle.Queue.Remove | libqdma/libqdma_export.c:211-230 | return code and new state, with the flags cleared before the cleanup looks at them |
| Lifecycle.Queue.Cleanup | libqdma/qdma_descq.c:945-961 | clears the contexts only of a queue still marked initialised, and releases a vector in any case |
| Fmap.RangesIsolated | libqdma/qdma_mbox.c:358-392 | in every run of range setup, HELLO, FMAP and BYE under the exact conditions of the rows below, each register word decodes to the range granted, the decoded ranges of different functions are disjoint and inside 0..2047, and the table holds the range of every function mapped while registered |
| Fmap.PfRangesExact | libqdma/qdma_device.c:167-176 | after the setup of two physical functions in any state, what their registers decode to is apart if and only if the first has no more queues than the second, or the second none |
| Fmap.VfRangeExact | libqdma/qdma_mbox.c:376-386 | default ranges follow each other by eight from queue 64 on, and one fits the hardware if and only if the function id is at most 249 |
| Fmap.NamedBaseExact | libqdma/qdma_mbox.c:376-389 | for every request in every state, what the register word decodes to (base mod 2^11, spilled base bits or-ed into the count mod 2^12) keeps clear of all other functions and inside the hardware if and only if it is empty or lies in the eight queues set aside; it is the range in the reply if and only if that fits 11 and 12 bits |
| Fmap.DefaultBaseExact | libqdma/qdma_mbox.c:376-389 | with no base named, if and only if the low twelve bits of the count are at most eight |
| Fmap.ChosenBaseOverlaps | libqdma/qdma_mbox.c:376-386 | two requests, one of which names the other's base |
| Fmap.MapExact | libqdma/qdma_sriov.c:180-196 | after any range request in any state, the register decodes to the range in the reply if and only if it fits 11 and 12 bits; the table holds it if and only if the function was registered and it fits 16 bits; both if and only if registered and it fits the register |
| Fmap.HelloExact | libqdma/qdma_sriov.c:164-178 | after a hello the function is registered if and only if a slot was free or it was registered before |
| Fmap.ByeExact | libqdma/qdma_mbox.c:365-373 | after a goodbye in any state the function has no slot and its register decodes to the empty range |
| Fmap.GoneStaysGone | libqdma/qdma_mbox.c:365-373 | in every run a function whose last message was a goodbye has no range |
| Fmap.TableExact | libqdma/qdma_sriov.c:150-196 | slot by slot: a hello takes the first free slot and keeps its old range, a goodbye clears every slot of the function, a range request changes its first slot |
| Fmap.OthersApart | libqdma/qdma_sriov.c:150-196 | what table and registers hold for one function does not depend on messages of others |
| Fmap.MapBeforeHello | libqdma/qdma_sriov.c:180-196 | a range asked for before HELLO is in the register and not in the table |
| Fmap.VfTable.SetOnline | libqdma/qdma_sriov.c:164-178 | the first free slot is taken; fails exactly when there is none |
| Fmap.VfTable.SetOffline | libqdma/qdma_sriov.c:150-162 | every slot of the function is freed and no other touched |
| Fmap.VfTable.SetRange | libqdma/qdma_sriov.c:180-196 | the function's first slot gets the range; fails exactly when it has none |
| Fmap.PackRangeExact | libqdma/qdma_regs.c:103-110 | base and count are read back from the packed register word if and only if they fit 11 and 12 bits |
| Fmap.PackDecodes | libqdma/qdma_regs.c:103-110 | what any packed word decodes to: base bits above the eleventh are or-ed into the count |
| Fmap.PackedElsewhere | libqdma/qdma_regs.c:103-110 | three ranges that the register turns into others, one of them empty and decoded to queue 0 |
| Fmap.VfDevice.PrepQueues | libqdma/qdma_device.c:24-110 | however often it is called or fails, hardware index is base, cut to 16 bits, plus queue index |
| Mailbox.TraceInv | libqdma/qdma_mbox.c:169-296 | every interleaving, with messages of other functions too, keeps exactly one trace of a waited request until its sender wakes, overwrites no unread message, and leaves undisturbed what the request did to table and register |
| Mailbox.AnswersExact | libqdma/qdma_mbox.c:181-206 | in every run a woken sender has the reply to its own request; a good status means: context operation done; after BYE neither slot nor range; register decodes to the range in the reply if and only if that fits 11 and 12 bits, and the table holds it if and only if the function was registered when the PF took the request and it fits 16 bits; after HELLO registered if and only if a slot was free or it was before; never for an unsupported operation |
| Mailbox.ContextDone | libqdma/qdma_mbox.c:401-458 | in every run, a sender woken with a good status after a context operation: the step that took its request did the operation |
| Mailbox.CodesDiffer | libqdma/qdma_mbox.h:93-110 | the operation codes are those of the header and tell the operations apart, so no sender takes another operation's reply for its own |
| Mailbox.HandlingIs | libqdma/qdma_mbox.c:343-460 | the record used there is what the PF found and did at the step in which it took the request |
| Mailbox.GoodButUnknown | libqdma/qdma_mbox.c:358-392 | from every table that does not know the function, a run in which its FMAP, or its HELLO without a free slot, is answered with good and the table still does not know it |
| Mailbox.HandledOnce | libqdma/qdma_mbox.c:324-473 | no request is handled twice |
| Mailbox.AnswerComesNearer | libqdma/qdma_mbox.c:232-254 | no answer is lost: from every state of a waiting sender at most eight steps of the two drain routines wake it |
| Mailbox.ReplyStatusExact | libqdma/qdma_mbox.c:343-473 | a reply is good if and only if all messages before it in the same drain went well and it answers HELLO, BYE, FMAP or a context operation that was done; the code of every other reply |
| Mailbox.OtherStatusExact | libqdma/qdma_mbox.c:343-473 | messages of other functions count in the same way |
| Mailbox.GoodAfterBad | libqdma/qdma_mbox.c:343-473 | a run in which a request that went well is answered as bad because of another function's message in the same drain |
| Mailbox.DrainStatuses | libqdma/qdma_mbox.c:343-473 | the drain loop with its carried status variable |
| Mailbox.StatusAfterExact | libqdma/qdma_mbox.c:449-458 | that status is zero if and only if all messages went well, and else which code it is |
| Context.SwAddressDecodes | libqdma/qdma_context.c:73-80 | the two words give back every 64-bit address |
| Context.SwWordDecodes | libqdma/qdma_context.c:73-101 | function, interrupt flag, enable flags, size selector and channel are read back |
| Context.SizeSelMeans | libqdma/qdma_descq.c:575-584 | selector `s` stands for the 8 * 2^s bytes by which the ring is allocated |
| Context.WrbDecodesExact | libqdma/qdma_context.c:133-167 | all fields of the four words are read back and the address, split 4 + 32 + 22 bits, too: if and only if it is 64-byte aligned |
| Context.CommandDecodes | libqdma/qdma_regs.c:160-161 | operation, selector and the low eleven bits of the queue number are read back from the command word, the whole number if and only if it is below 2^11 |
| Context.CommandInjective | libqdma/qdma_regs.c:160-161 | different commands have different words |
| ContextStore.Device.Prog | libqdma/qdma_regs.c:118-220 | through the packed command word: success means the one context is written, cleared or read; no other is touched in any case; the read-back check cannot fail |
| ContextStore.Device.Execute | libqdma/qdma_regs.c:166-173 | the hardware carries out the decoded command on the one context it names, or times out |
| ContextStore.Device.Clear | libqdma/qdma_context.c:383-435 | success leaves all contexts of the queue zero; nothing else changes even on failure |
| ContextStore.Device.Program | libqdma/qdma_context.c:506-543 | success leaves the packed words and cleared hardware and credit contexts; nothing else changes even on failure |
| ContextStore.Device.Read | libqdma/qdma_context.c:464-504 | returns the stored contexts of the queue and changes nothing |
| ContextStore.NumbersExact | libqdma/qdma_regs.h:144-161 | by the header's numbers: which context each part of a read comes from, which contexts a queue has, the operation codes; data words are padded with zeros |
| ContextStore.ProgrammedExact | libqdma/qdma_context.c:506-543 | by the header's numbers: what a queue's contexts are after programming |
| ContextStore.ProgramReadsBack | libqdma/qdma_context.c:464-543 | reading after programming returns the programmed words |
| ContextStore.OthersUndisturbed | libqdma/qdma_context.c:383-543 | programming or clearing one queue changes nothing that another queue, differing in the low eleven bits, or the other direction reads back |

## Left out

- User-defined data of C2H writeback entries: the read is modelled with that option off.
- Interrupt coalescing and the queue-to-vector map: the scan bounds decide no clean property.
- The prefetch context's packing, the choice of a worker thread, `qdma_queue_config`, statistics and name
  strings: they would add only easy members.
- A failed page allocation inside the C2H service routine is not a step of the C2H runs; what it does to the
  freelist and to teardown is `C2hDescq.FailedRefillExact`. A failed allocation of a list entry, whose page the
  routine then drops, is not modelled.
- C2hRun.StreamConserved: over runs without entries in error; what those do is `C2hErrors.ErrorNeverPassed` and
  `C2hErrors.ErrorFreezes`. An entry in error is taken to use up no descriptor.
- Stop followed by start with requests in flight: a ring run begins at add, where the indices are set.
- QueueTheorems.CompletionExact: over runs whose requests have elements of 1 to the descriptor limit, because of
  `Payload.ExactlyOnceExact`, adding up to `count`, because of `Payload.CountExact` and
  `QueueTheorems.FailExact`; and whose timed-out callers had nothing programmed, because of
  `QueueTheorems.TimeoutExact`.
- QueueTheorems.CreditConserved: over the same runs.
- Fmap.RangesIsolated: over runs in which the conditions of `Fmap.PfRangesExact`, `Fmap.VfRangeExact`,
  `Fmap.NamedBaseExact` and `Fmap.DefaultBaseExact` hold.
- Lifecycle.VectorsExact: other queues do not change the counts in between.
- Lifecycle.RunOk: speaks of buffers and received pages; interrupt vectors are leaked as `Lifecycle.VectorsExact` says.
- Mailbox.TraceInv: one thread of the VF sends at a time and nothing times out.
- QueueTable.ReservationsConserved: one direction; the other has its own counter and slots.
- Descq.DescQueue.SubmitReq: DMA mapping of the list before the append is taken to succeed.
- C2hDescq.WakeExact: does not count in readers that come later and find all they want at once.
- 32-bit wrap-around of `offset` and `data_cnt` for lists whose lengths do not add up to `count`.
- The 16-bit width of the index in the writeback word.
- PCI probing, BAR and DMA mapping, kernel threads, timers, character devices, netlink, dumps, command-line
  tools, and drv/libqdma, a second copy of libqdma.
