# A verified model of WDUTF's kernel components

WDUTF runs Windows kernel drivers in user space by re-implementing parts of the kernel.
This project models, in Dafny 4.11, those parts of it that are algorithms and protocols
of their own, and proves what they promise:

- the **detour registry**: regions of detour slots handed out near the functions they patch,
  the intercepts attached to each function, and what a call of the function reaches;
- the **bitmaps** packed into words: range operations, first-fit search with a hint, run
  counting, and allocation of extents on top of them;
- the **remove lock**, a lock-free acquire, release and drain protocol;
- **device stacks** and the **stack of locations of an I/O request packet**, from the calls
  down to completion, stopping and resuming;
- **DPCs** and **one-shot timers** racing with the thread pool that runs them, the **lazy table
  of reader-writer spin locks**, and the **shadow counts** of semaphores and mutexes;
- **symbolic links** followed through the name list with their reference counts;
- **registry values**: enumeration that deletes as it goes, the growing read buffer, and lists
  of strings.

`dafny verify dfyconfig.toml` checks everything.

## How the model is built

Objects that the program changes in place are classes with those fields, and each method's
contract gives its new state, as a value or as a function of the old one. The lemmas are about
these values.

`Registry` in `Detours` carries a ghost history `live` of all attachments, newest first. `Valid()`
ties the regions, free counts, high water marks, reference counts and lists to it; every
public call keeps it, whatever the Detours library and the allocators answer. So it
holds over every run of calls.

`RtlBitMap` keeps its words in an array. `Bits()` is the same memory as a plain sequence with its
padding. `BitSearch` says on plain sequences what a search answers.

Protocols between threads come in two layers. A module such as `RemoveLock` gives the state,
one step per interlocked operation or statement that other threads can see, an invariant, and theorems
about every run for any number of threads (for DPCs these are in `DpcRuns`). A module such as `RemoveLockObject` then has the
calls statement by statement: between any two steps, `Others` lets everybody else take any
number of steps, each statement of the call is one step of the protocol, and the
contract holds whatever the others did. The thread pool appears by its contract: a pending
callback may be started or, while a wait with cancellation is on, be dropped; the wait ends
when no callback is pending or still belongs to the pool.

Completion routines, query routines and failures of allocations and system calls are arbitrary
functions, parameters or havocked values.

## Findings

Where the code does not do what its interface promises, the model follows the code, and
the exact condition is proved:

- The whole-word shortcut adds 32 even in a partial last word. In the searches
  (`src/bitmap.cpp:832-834`, `:887-889`) it never changes an answer exactly for the bitmaps that
  `BitSearch.TailSafe` describes; `BitSearch.UnsafeTailSearch` gives a search that goes wrong on
  every other one. So a bitmap used as an allocator fires the assertion of `RtlSetBits` in some run
  unless it has no padding, only one word, or a padding bit of the last word that is set
  (`BitExtents.AssertionNeverFiresExactlyWhen`).
- In the run counter (`src/bitmap.cpp:788-791`) the same shortcut keeps every reported length exact
  exactly for the bitmaps that `BitRuns.RunSafe` describes, which are fewer: the run of an all-clear
  bitmap of 40 bits is reported as 64 (`BitRuns.RunLengthsExactExactlyWhen`,
  `BitRuns.SearchSafeIsNotRunSafe`).
- A run that is there is refused exactly when it is the whole of an all-clear bitmap
  (`src/bitmap.cpp:445`, `:545`; `BitSearch.RefusedExactlyWhen`).
- `CurrentLocation` is a signed character. With 126 or 127 stack locations no test of the
  completion loop ever ends it, from wherever the request stands, and the test for multiple
  completions can never fire (`IrpCounter.CompletionEndsExactlyWhen`,
  `IrpCounter.BugCheckFiresExactlyWhen`); a packet of 126 locations runs past the end of its stack
  exactly when no routine stops its completion (`IrpObject.Packet.CompleteRequest`).
- A device may have a StackSize of 127, but a request allocated with it cannot be forwarded even
  once, because its counter starts at -128 (`DeviceStack.ForwardingSucceedsExactlyWhen`,
  `DeviceStack.TallestStackCannotForward`).
- The test of `IofCallDriver` runs before the counter moves, so it also passes for one call more than
  there are locations (`src/irp.cpp:180`, `IrpCounter.CallPastTheEndPasses`).
- Attaching a device keeps stacks well formed exactly when `DeviceStack.Fits` holds: attaching
  it to itself, under devices that are already too low, or above 127 levels breaks the stack.
- `IoDeleteSymbolicLink` never gives up the reference of the link's creation
  (`Names.DeletedLinkIsLeft`), and on a name that is not a link it keeps the reference of its
  own look-up (`SymLinks.Namespace.DeleteSymbolicLink`).
- A chain of 1002 links that ends is reported as recursive (`Names.LongChainsFailWithoutCycle`).
- An empty default `REG_MULTI_SZ` is measured beyond its end (`RegistryStrings.MeasuredExactlyWhen`).

## Model

| member | source | states |
|---|---|---|
| `Detours.Registry.AttachIntercept` | src/detours.cpp:178-214 | Success puts exactly one new entry, with the given code, identity, instance and thread, at the front of the history and keeps all others in order; any failure leaves the whole registry as it was; NULL arguments and a failed allocation give their statuses; a function that has an intercept never fails; no slot in use is moved or repatched |
| `Detours.Registry.DetachIntercept` | src/detours.cpp:217-246 | Exactly the attachments of another thread than a given one, and those that have a given identity neither as identity nor as instance, are left, in their order, though slots and regions are freed on the way and unpatching may fail; success is answered exactly when no function is left patched for nothing that was not so before |
| `Detours.Registry.DetachAddressRange` | src/detours.cpp:249-295 | Exactly the attachments to functions outside of the range, and those whose code is outside of a given module, are left, in their order, with the same answer |
| `Detours.Registry.GetIntercept` | src/detours.cpp:299-324 | A call reaches the newest entry for its thread, else the oldest entry for all threads, else the trampoline, and the real pointer is the trampoline, never NULL |
| `Detours.Registry.FindDetour` | src/detours.cpp:398-409 | Looking only at regions within jump bounds and below their marks finds a slot of the function if any region has one |
| `Detours.Registry.FindFreeSlot` | src/detours.cpp:434-446 | A region with free slots yields its first one; "Region has no free detours" is unreachable |
| `Detours.Registry.TakeSlot` | src/detours.cpp:434-453 | Takes the first free slot for a function that has none and raises the mark; only that slot is left unpatched |
| `Detours.Registry.AllocateDetour` | src/detours.cpp:412-464 | Success gives the function one patched slot without intercepts, the first free one of the first region with room or of a new region if there is none; any failure, after a new region was made too, restores regions, list, counts and marks exactly |
| `Detours.Registry.FreeDetour` | src/detours.cpp:467-486 | A slot with intercepts or a failed unpatch leaves everything as it was; otherwise the slot is free, the mark lowered, and a wholly free region that nobody refers to is unlisted |
| `Detours.Registry.ClearSlot` | src/detours.cpp:467-483 | After a successful unpatch the slot is free and counted and the mark is one past the highest slot in use; after a failed one only the mark may have changed |
| `Detours.Registry.LowerMark` | src/detours.cpp:480-481 | The mark ends one past the highest slot in use and nothing else changes |
| `Detours.Registry.FreeIntercept` | src/detours.cpp:356-379 | Takes exactly the given entry off the list of its slot and gives up the slot when it was the last |
| `Detours.Registry.DetachSlot` | src/detours.cpp:229-239 | Walking a list whose entries are freed under way visits every entry once and leaves none that is selected |
| `Detours.Registry.DetachRegion` | src/detours.cpp:228-239 | Walking a region whose mark shrinks under way leaves nothing selected in it, and the region stays listed while it is referred to |
| `Detours.Registry.VisitRegion` | src/detours.cpp:225-242 | One region of a walk: referred to, cleared, released; the next region is the one that followed it, whether it went or not |
| `Detours.Registry.Detach` | src/detours.cpp:225-246 | The walk over all regions leaves exactly the survivors |
| `Detours.Registry.AddReference` | src/detours.cpp:600-603 | A listed region is referred to once and no slot changes |
| `Detours.Registry.DeleteReference` | src/detours.cpp:606-610 | After the release no region is referred to and no wholly free region is listed |
| `Detours.Registry.FreeRegion` | src/detours.cpp:583-597 | Exactly a region that is wholly free and not referred to is unlinked |
| `Detours.Registry.AllocateRegion` | src/detours.cpp:551-580 | A region of as many zero-filled slots as the memory holds, at the head of the list, or no change when memory is missing or too small |
| `Detours.Registry.FindRegion` | src/detours.cpp:418-422 | The first region on the list with a free slot within the reduced jump bounds, or NULL exactly if there is none |
| `Detours.Registry.AttachDetour` | src/detours.cpp:489-502 | A slot is patched exactly when the update succeeds; one that is patched is left alone |
| `Detours.Registry.DetachDetour` | src/detours.cpp:505-516 | A slot loses its trampoline exactly when the update succeeds |
| `DetourSteps.DetourStatus` | src/detours.cpp:613-640 | Each result of the Detours library has its status, and only no error succeeds |
| `DetourTable.InterceptSitsOnce` | src/detours.cpp:356-379 | Every live intercept is on exactly one list, once: that of the slot it points to, which belongs to its function |
| `DetourTable.JumpsFitExactlyWhen` | src/detours.cpp:382-395 | A function outside of a region is within bounds exactly when every place of the region is near enough, and one inside exactly when one of the ends is |
| `DetourTable.FreeCountBounds` | src/detours.cpp:583-586 | The free count is that of the region exactly when no slot is used, and zero exactly when all are |
| `DetourTable.MarkUnique` | src/detours.cpp:480-481 | A region's mark is determined by its slots |
| `DetourTable.SlotCleared` | src/detours.cpp:475-483 | Freeing a slot keeps every invariant but that its region may be wholly free |
| `DetourTable.RegionDropped` | src/detours.cpp:583-597 | Unlinking a wholly free region keeps every invariant and every slot |
| `DetourTable.EntryUnlinked` | src/detours.cpp:366-372 | Unlinking an entry is removing it from the history |
| `DetourTable.EntryLinked` | src/detours.cpp:205-210 | Linking an entry is putting it at the front of the history |
| `DetourTable.SlotTaken` | src/detours.cpp:434-453 | Taking a free slot for a function that has none keeps every invariant |
| `DetourTable.RegionAdded` | src/detours.cpp:559-579 | A new region changes no slot and is the only one that may be wholly free |
| `DetourHistory.DispatchCons` | src/detours.cpp:308-316 | What a dispatch answers, seen from the newest entry on |
| `DetourHistory.DispatchReaches` | src/detours.cpp:306-316 | What a dispatch answers, said of the attachments: the newest to the function for the thread, else the oldest to it for all threads, else the real code |
| `DetourHistory.AttachForAnotherThread` | src/detours.cpp:205-214 | Attaching for another specific thread never changes what this thread reaches |
| `DetourHistory.DetachForAnotherThread` | src/detours.cpp:217-246 | Detaching for another specific thread never changes what this thread reaches |
| `DetourHistory.AttachThenDetach` | src/detours.cpp:178-246 | Detaching what only one attachment matches restores the history from before it |
| `DetourHistory.OnlyRelevantMatter` | src/detours.cpp:308-316 | Only entries for this thread and for all threads can decide a dispatch |
| `DetourHistory.AllGone` | src/detours.cpp:225-246 | When the walk has left nothing selected, exactly the survivors are left |
| `DetourHistory.OwnersLeft` | src/detours.cpp:233-234 | What the selection by owner leaves, on the fields of the entries |
| `DetourHistory.OutsideLeft` | src/detours.cpp:278-282 | What the selection by range and module leaves, on the fields of the entries |
| `BitSearch.LeastMeaning` | src/bitmap.cpp:441-537 | What a search answers is the least accepted start, and no answer means that there is none |
| `BitSearch.FindMeans` | src/bitmap.cpp:441-537 | With the shortcut or without: the least accepted start at or after the hint if the request fits behind it and there is one, else the least anywhere, else 0xFFFFFFFF; a request for 0 bits looks for 1 |
| `BitSearch.ExactFind` | src/bitmap.cpp:441-537 | With an exact tail: the least start at or after the hint of a run inside the bitmap, else the least anywhere, else 0xFFFFFFFF exactly when there is no such run; a request for 0 bits looks for 1 |
| `BitSearch.RefusedExactlyWhen` | src/bitmap.cpp:441-537 | A run of the requested length is there and not answered exactly when the whole of an all-clear bitmap is requested, with the shortcut or without |
| `BitSearch.ShortcutHarmlessExactlyWhen` | src/bitmap.cpp:832-836 | The whole-word shortcut never changes an answer exactly when there is no padding, the last word is not all clear, or the last clear run begins in the last word or at bit 0 or 1 |
| `BitSearch.UnsafeTailSearch` | src/bitmap.cpp:832-836 | On every other bitmap, a search whose answer runs past the end |
| `BitMap.RtlBitMap.Initialize` | src/bitmap.cpp:38-42 | The bitmap is the given words and size |
| `BitMap.RtlBitMap.ClearBit` | src/bitmap.cpp:46-53 | Exactly the numbered bit becomes clear |
| `BitMap.RtlBitMap.SetBit` | src/bitmap.cpp:57-64 | Exactly the numbered bit becomes set |
| `BitMap.RtlBitMap.TestBit` | src/bitmap.cpp:67-75 | The numbered bit |
| `BitMap.RtlBitMap.ClearAllBits` | src/bitmap.cpp:79-95 | Exactly the bits in use become clear; the padding stays |
| `BitMap.RtlBitMap.SetAllBits` | src/bitmap.cpp:98-114 | Exactly the bits in use become set; the padding stays |
| `BitMap.RtlBitMap.ClearBits` | src/bitmap.cpp:117-151 | Exactly the bits of the range become clear, across words |
| `BitMap.RtlBitMap.SetBits` | src/bitmap.cpp:154-188 | Exactly the bits of the range become set, across words |
| `BitMap.RtlBitMap.FindNextForwardRunClear` | src/bitmap.cpp:191-248 | The first clear bit at or after the index and the maximal run from it, except that a run begun before an all-clear last word is reported longer by exactly 31 less the last bit position |
| `BitRuns.RunLengthsExactExactlyWhen` | src/bitmap.cpp:788-791 | Every run is reported with its length exactly when there is no padding, only one word, a last word that is not all clear, or a set bit just before it |
| `BitRuns.UnsafeRunIsLonger` | src/bitmap.cpp:788-791 | On every other bitmap, the run of the bit before the last word is reported with the padding |
| `BitRuns.SearchSafeIsNotRunSafe` | src/bitmap.cpp:788-791 | The one run of an all-clear bitmap of 40 bits is reported as 64, though no search is misled on it |
| `BitMap.RtlBitMap.AreBitsClear` | src/bitmap.cpp:255-345 | TRUE exactly when the range is in the bitmap, not empty, and all clear |
| `BitMap.RtlBitMap.AreBitsSet` | src/bitmap.cpp:348-438 | TRUE exactly when the range is in the bitmap, not empty, and all set |
| `BitMap.RtlBitMap.FindClearBits` | src/bitmap.cpp:441-537 | What `BitSearch.Find` answers on the bits, shortcut included |
| `BitMap.RtlBitMap.FindSetBits` | src/bitmap.cpp:541-635 | What `BitSearch.Find` answers on the complement of the bits |
| `BitMap.RtlBitMap.NumberOfSetBits` | src/bitmap.cpp:639-679 | The number of set bits before the end of the bitmap, padding left out |
| `BitMap.RtlBitMap.FindClearBitsAndSet` | src/bitmap.cpp:682-691 | The search, and exactly the run found set; whether the assertion on the range fires |
| `BitMap.RtlBitMap.FindSetBitsAndClear` | src/bitmap.cpp:694-703 | The search, and exactly the run found cleared; whether the assertion on the range fires |
| `BitScan.CountClearRun` | src/bitmap.cpp:775-814 | How one word carries on a count of clear bits, and when the run has ended |
| `BitScan.NumClearBitsFound` | src/bitmap.cpp:817-869 | How one word carries on a search for clear bits, and when it has found the least start |
| `BitScan.NumSetBitsFound` | src/bitmap.cpp:872-924 | The same for set bits |
| `BitScan.ClearBitsInRange` | src/bitmap.cpp:739-745 | Exactly the bits of the range in one word become clear |
| `BitScan.SetBitsInRange` | src/bitmap.cpp:757-763 | Exactly the bits of the range in one word become set |
| `BitExtents.RunSound` | src/bitmap.cpp:117-187 | Over every run of allocations and frees from an all-clear bitmap the live extents stay in range and disjoint, the set bits are exactly their union, the padding never changes and the set bits number their total length |
| `BitExtents.AssertionNeverFiresExactlyWhen` | src/bitmap.cpp:154-160 | From an all-clear bitmap the assertion of RtlSetBits fires in no run exactly when there is no padding, only one word, or a padding bit of the last word that is set |
| `BitExtents.UnsafeRunAsserts` | src/bitmap.cpp:682-691 | On every other all-clear bitmap, two allocations of which the second fires it |
| `BitExtents.InitiallySound` | src/bitmap.cpp:79-95 | Any all-clear bitmap is sound, with no extents |
| `BitExtents.StepSound` | src/bitmap.cpp:639-690 | One allocation or free keeps all of that |
| `BitExtents.Perform` | src/bitmap.cpp:639-690 | A run on a real bitmap follows the specification up to an operation whose assertion fires, is performed to its end if the padding is safe, and RtlNumberOfSetBits answers the total length of the live extents |
| `BitExtents.SetSearchIsClearSearch` | src/bitmap.cpp:541-635 | RtlFindSetBits on any bitmap is RtlFindClearBits on its word-wise complement |
| `RemoveLock.CountIsExact` | src/device.cpp:340-378 | In every reachable state IoCount is the initial count, while it is there, plus holders plus acquirers in flight, so never negative |
| `RemoveLock.NoHolderAfterReturn` | src/device.cpp:371-378 | Once IoReleaseRemoveLockAndWaitEx has returned nobody holds the lock and nobody ever will, whatever goes on |
| `RemoveLock.NoLostWakeup` | src/device.cpp:349-378 | While the remover waits on an event that is not set, somebody still has to decrement the count or set the event |
| `RemoveLock.RemoverReturns` | src/device.cpp:371-378 | However the threads are scheduled, once nobody enters anew a bounded number of steps is left, and when none is left the remover has returned |
| `RemoveLock.StepKeeps` | src/device.cpp:340-378 | Every step of every thread keeps the invariant |
| `RemoveLock.InitialHolds` | src/device.cpp:324-342 | The lock starts in the invariant |
| `RemoveLockObject.Lock.AcquireRemoveLock` | src/device.cpp:346-360 | Success means that the caller holds the lock, STATUS_DELETE_PENDING that it does not and removal has begun; after removal has begun it is always refused |
| `RemoveLockObject.Lock.ReleaseRemoveLock` | src/device.cpp:363-368 | The caller no longer holds the lock, and the event is set if its decrement was the last |
| `RemoveLockObject.Lock.ReleaseRemoveLockAndWait` | src/device.cpp:371-378 | When it returns nobody holds the lock |
| `DeviceStack.WalksAreInverse` | src/device.cpp:279-319 | Walking up from the base of a stack visits what walking down from its top visits, in reverse |
| `DeviceStack.AttachingKeepsExactlyWhen` | src/device.cpp:225-238 | Attaching an unattached device keeps the links inverse and the stack sizes rising exactly when it fits, and then puts it, with all above it, on top of the target's stack |
| `DeviceStack.DetachingCuts` | src/device.cpp:271-275 | Detaching keeps the invariant and cuts one stack into two |
| `DeviceStack.OnlyLinksChange` | src/device.cpp:225-275 | On the fields: attaching writes the two links and the size of the source, which wraps from 127 to -128, detaching clears the two links, and nothing else changes |
| `DeviceStack.ForwardingSucceedsExactlyWhen` | src/irp.cpp:146-187 | Over every run of attaching and detaching, an IRP allocated with a device's StackSize and forwarded one device down per call passes the test of IofCallDriver at every device exactly when that StackSize is at most 126, the counter wrapping as the signed character it is; then every call has a location left |
| `DeviceStack.TallestStackCannotForward` | src/irp.cpp:161-180 | 127 devices attached one on the other keep every invariant, but the first call for the topmost fails the test |
| `DeviceStack.GetAttachedDevice` | src/device.cpp:279-287 | The walk up ends at the top of the stack |
| `DeviceStack.GetAttachedDeviceReference` | src/device.cpp:291-297 | The top of the stack gains one reference, no other device does |
| `DeviceStack.GetLowerDeviceObject` | src/device.cpp:301-307 | The device below gains one reference if there is one, no other device does |
| `DeviceStack.GetDeviceAttachmentBaseRef` | src/device.cpp:311-320 | The walk down ends at the base of the stack, which gains one reference |
| `DeviceStack.AttachDeviceToDeviceStackSafe` | src/device.cpp:225-238 | Writes the two links and the size, the latter as a signed character, on top of the target's stack and nowhere else |
| `DeviceStack.DetachDevice` | src/device.cpp:271-275 | Clears the two links and nothing else, and the stacks stay well formed |
| `IrpStack.LedgerNeverBreaks` | src/irp.cpp:155-247 | Over every run of calls, status changes, completions and resumes, with a ledger that keeps the status and the cancel flag from what was set and answered: locations are popped in the reverse order of the calls; right after a pop a routine fires exactly if the bits of that call match the status and the cancel flag the request has then; it is the one set for that call, never a stale one, and it gets the device of the location above or none; its answer ends the completion exactly if it asks for more processing; up to 125 locations the current one fits its signed character |
| `IrpStack.EachCallPoppedOnce` | src/irp.cpp:212-243 | Each call is popped exactly once unless it is still open |
| `IrpStack.ResumingIsNeverStopping` | src/irp.cpp:206-243 | Stopping with STATUS_MORE_PROCESSING_REQUIRED any number of times and resuming ends in the same request after the same pops, routines and answers in the same order as never stopping |
| `IrpStack.BugCheckExactlyAfterFullCompletion` | src/irp.cpp:210-211 | MULTIPLE_IRP_COMPLETE_REQUESTS fires exactly after a completion has run to its end, and then every call has been popped; locations are plain numbers, which up to 125 of them is what their character holds |
| `IrpStack.PendingReachesTheTop` | src/irp.cpp:223-241 | If routines propagate the pending bit as asked, the originator sees PendingReturned exactly when some driver of the stack marked the request pending, whether its routine fires or not |
| `IrpStack.WalkForm` | src/irp.cpp:214-243 | The completion loop moves up, and reaches the end exactly if no routine stops it |
| `IrpStack.PopAgrees` | src/irp.cpp:219-239 | One turn of the loop is one pop of the ledger, with the firing and the answer exactly if it is due by the status the ledger has kept |
| `IrpStack.PopMeans` | src/irp.cpp:219-242 | One turn of the loop on the fields: the routine fires exactly if the bits match the status and the cancel flag of the request, what it gets and sees, and the request left behind; the popped location keeps its device and routine, only the one above may get a pending mark |
| `IrpStack.CallAgrees` | src/irp.cpp:177-187 | One call is one push of the ledger |
| `IrpCounter.CompletionEndsExactlyWhen` | src/irp.cpp:214-216 | From wherever the request stands, some later test of the completion loop ends it exactly with at most 125 locations |
| `IrpCounter.CompletionEndsAt` | src/irp.cpp:214-216 | Then it is the first test past the last location |
| `IrpCounter.BugCheckFiresExactlyWhen` | src/irp.cpp:210-211 | Some mix of calls and turns of the completion loop brings CurrentLocation to where the test for multiple completions fires exactly with at most 125 locations |
| `IrpCounter.CallsPassExactlyWhen` | src/irp.cpp:177-183 | The test of IofCallDriver passes for each of up to StackSize calls exactly with at most 126 locations |
| `IrpCounter.CallPastTheEndPasses` | src/irp.cpp:177-183 | With up to 126 locations the test passes for exactly one call more than there are locations |
| `IrpObject.Packet.constructor` | src/irp.cpp:156-166 | A new packet of up to 127 locations, all zero, the current one past the last; only with 127 the counter has wrapped |
| `IrpObject.Packet.CallDriver` | src/irp.cpp:177-187 | The packet after the call is the one of `IrpStack.Call`; on the fields, the new location has the device, parameters, routine and bits it was given, the number and the pointer are one lower, and no other location changes |
| `IrpObject.Packet.ClearStackLocation` | src/irp.cpp:191-202 | Parameters and control are cleared, device and routine kept |
| `IrpObject.Packet.CompleteLocation` | src/irp.cpp:219-242 | One turn of the loop on the fields is one pop of the specification, events and answer included; the routine of the location fires exactly if its bits match the status and the cancel flag the packet had |
| `IrpObject.Packet.CompleteRequest` | src/irp.cpp:206-247 | The packet, the events and the stop of the loop are those of `IrpStack.Complete`, except that the loop goes on past the end of the stack exactly with more than 125 locations and no routine that stops it |
| `IrpObject.Packet.MarkIrpPending` | src/irp.cpp:241-242 | Exactly the pending bit of the current location is set |
| `DpcRuns.AtMostOneUnstarted` | src/dpc.cpp:94-113 | At most one instance of a DPC is waiting to start, in every reachable state |
| `DpcRuns.CountersAreExact` | src/dpc.cpp:32-56 | DpcsQueued less DpcsCompleted is the number of outstanding inserts of all DPCs, in every reachable state |
| `DpcRuns.FlushWaits` | src/dpc.cpp:140-146 | When a flush returns no more inserts are outstanding than were counted since it began, so none if there were none |
| `DpcRuns.TicketsNeverTurnBack` | src/dpc.cpp:35-137 | An insert that has come to run is never removed and one that was removed never runs |
| `DpcRuns.NothingIsLost` | src/dpc.cpp:94-137 | When nothing can go on no call is stuck, and every insert that returned TRUE has run exactly once or made exactly one removal return TRUE |
| `DpcRuns.RemovalReturns` | src/dpc.cpp:117-137 | Once no further call begins a bounded number of steps is left in whatever order, and when none is left a removal that has set cancel has returned |
| `Dpc.ActKeeps` | src/dpc.cpp:35-137 | Every step on a DPC keeps its invariant |
| `Dpc.NextKeeps` | src/dpc.cpp:35-146 | Every step on any DPC keeps the counters exact |
| `DpcObject.Dpcs.InsertQueueDpc` | src/dpc.cpp:94-113 | TRUE means that the call has made one new ticket and submitted it to the pool, FALSE inside the critical section that queued or cancel is set |
| `DpcObject.Dpcs.RemoveQueueDpc` | src/dpc.cpp:117-137 | TRUE exactly when queued was set at the exchange, and then one dropped ticket is taken back and counted; FALSE means nothing queued, another removal, or a callback that has started |
| `DpcObject.Dpcs.DpcCallback` | src/dpc.cpp:35-56 | A started ticket comes to be run and counted: the executions of the DPC and DpcsCompleted have risen |
| `DpcObject.Dpcs.FlushQueuedDpcs` | src/dpc.cpp:140-146 | It is done exactly when the completed count has come up to what it read, and then no insert counted before it began is missing from the completed ones |
| `DpcObject.CancelledExists` | src/dpc.cpp:131-133 | After the wait a set queued flag belongs to a ticket that the pool has dropped |
| `Timer.EachSettingEndsOnce` | src/timer.cpp:33-104 | Between calls each earlier setting, and the last one when it is cancelled or its clock has run out and its callbacks are through, has ended in exactly one of a single signal and one call that returned TRUE; an active one in neither |
| `Timer.RestHasEnded` | src/timer.cpp:33-104 | A setting that nobody cancels has been signalled once its clock has run out and no callback is alive |
| `Timer.SignalSets` | src/timer.cpp:37-41 | The step that ends a setting by its signal sets the event, ends the last setting and no other, and nothing else sets the event |
| `Timer.EventStays` | src/timer.cpp:33-104 | A set event stays set until a wait consumes it or a later setting, not signalled yet, resets it |
| `Timer.EventIsTheSignal` | src/timer.cpp:33-104 | From any reachable state whose last setting is not signalled, or signalled and not consumed, over every run in which no wait consumes the event: between calls the event is set exactly when the last setting has been signalled |
| `Timer.CallbacksActForTheirSetting` | src/timer.cpp:33-42 | A queued or running callback belongs to the last setting, whose Dpc the timer holds; an event found set was signalled for the last setting |
| `Timer.ReportedNeverSignals` | src/timer.cpp:73-104 | A setting for which a call returned TRUE never signals, however the pool goes on |
| `Timer.CallReturns` | src/timer.cpp:33-104 | Until the next call begins a bounded number of steps is left in whatever order, and when none is left the call has returned, the clock has run out, no callback is alive and the last setting has ended once |
| `Timer.NextKeeps` | src/timer.cpp:33-104 | Every step of controller, clock and callbacks keeps the invariant |
| `TimerObject.KernelTimer.CancelTimer` | src/timer.cpp:73-81 | When it is done the last setting has ended once, by this call exactly when it returns TRUE |
| `TimerObject.KernelTimer.SetTimerEx` | src/timer.cpp:85-104 | When it is done the setting before has ended once, by this call exactly when it returns TRUE, and a new setting has begun |
| `TimerObject.KernelTimer.Arm` | src/timer.cpp:96-103 | The new setting is active, its Dpc held, the event reset and the clock started, and meanwhile no callback was alive, queued or run |
| `SpinLock.EachWordHasItsSlot` | src/spinlock.cpp:149-177 | In every reachable state a call that has returned has its word's one slot in an allocated block, distinct words have distinct slots, and "Uninitialized" is unreachable |
| `SpinLock.IndexIsPermanent` | src/spinlock.cpp:158-167 | A word keeps the index that a call returned, whatever goes on |
| `SpinLock.TooManyOnlyWhenFull` | src/spinlock.cpp:160-161 | "Too many" is reported only when all sixteen million indexes are handed out |
| `SpinLock.CallsReturn` | src/spinlock.cpp:149-177 | However the calls are scheduled a bounded number of steps is left, and when none is left every call has returned or failed, unless one has failed inside the lock |
| `SpinLock.StepKeeps` | src/spinlock.cpp:149-177 | Every step of every call keeps the invariant and changes no index that is given |
| `SpinLockTable.Table.GetSRWLock` | src/spinlock.cpp:149-177 | The slot returned is that of the word's index, in an allocated block; a failure means a full table, or no memory for a block that is missing, and only for a word that had no index; "Uninitialized" is never returned |
| `SpinLockTable.Table.Assign` | src/spinlock.cpp:157-168 | Inside the lock a word keeps the index it has, else it gets the next one, else the call fails: too many exactly if the table is full, otherwise for lack of memory for a missing block |
| `SpinLockTable.Table.Test` | src/spinlock.cpp:173-176 | Both final tests pass |
| `Semaphore.ShadowIsExact` | src/semaphore.cpp:41-70 | In every reachable state the shadow count is the system's count plus releases announced and not made plus waits granted and not recorded |
| `Semaphore.ReadStateIsRight` | src/semaphore.cpp:59-63 | While nobody releases less than one, the shadow count is never below the system's, and equal to it when no thread is inside a call |
| `SemaphoreObject.Semaphores.ReleaseSemaphore` | src/semaphore.cpp:41-55 | Announces, then releases or stops exactly for a limit exceeded or an adjustment below one; the answer is whether the system's count was not zero |
| `SemaphoreObject.Semaphores.WaitStatus` | src/wait.cpp:39-50 | Records each semaphore that was granted exactly once: that of the index for a wait for any, all of them for a wait for all |
| `SemaphoreObject.SemsOfAre` | src/wait.cpp:39-50 | What a wait for all is granted are the semaphores among the objects, each once and in their order |
| `SemaphoreObject.Semaphores.ReadStateSemaphore` | src/semaphore.cpp:59-63 | Zero means that the semaphore is not signalled, and while no thread is inside a call the answer is exact |
| `Mutex.ShadowIsExact` | src/mutex.cpp:38-77 | Outside the owner's own update windows shadow owner and count are the system's owner and depth; only the owner is ever in such a window, and the count is at most one behind |
| `Mutex.ReleaseFreesExactlyWhenZero` | src/mutex.cpp:38-53 | A step of KeReleaseMutex returns zero exactly when it frees the mutex, and a thread that does not own it changes nothing |
| `MutexObject.KernelMutex.WaitAndUpdate` | src/mutex.cpp:66-77 | After a wait the thread owns the mutex once more, in the system and in the shadow |
| `MutexObject.KernelMutex.ReleaseMutex` | src/mutex.cpp:38-53 | For the owner it undoes one wait and returns zero exactly when that frees the mutex; for others it returns one |
| `Names.FailsExactlyOnCycles` | src/symlink.cpp:62-77 | With at most 1001 links, resolving fails exactly when following enabled links comes back to a link |
| `Names.LongChainsFailWithoutCycle` | src/symlink.cpp:62-67 | A chain of 1002 links without any cycle fails too |
| `Names.ToNul` | src/symlink.cpp:35-36 | A copied string ends before its first NUL |
| `Names.FindIsFirst` | src/name.cpp:56-66 | A look-up answers with the object of the first name that is equal under case folding and alive, and with nothing exactly if there is none |
| `Names.FollowResolves` | src/symlink.cpp:62-77 | The way through the links: each but the last is an enabled link to the first live name equal to its destination; resolving fails exactly when 1001 of them lead to one more link, and else ends at what is not an enabled link |
| `Names.DeletedLinkIsLeft` | src/symlink.cpp:25-59 | Deleting a link just created restores the name list but leaves the link with one reference for ever |
| `Names.MovedMeans` | src/symlink.cpp:72-73 | Referring to one object and releasing another changes those two counts by one and nothing else, and frees exactly what has no reference left |
| `Names.WayGoesOn` | src/symlink.cpp:66-74 | Each link followed moves the caller's one reference on and restores the count of the link it leaves |
| `Names.ReleasedKeeps` | src/object.cpp:191-195 | Releasing a reference beside those of the names keeps every name alive |
| `Names.OtherNamesLeft` | src/name.cpp:138-155 | Exactly the names of other objects are left, in their order |
| `SymLinks.Namespace.ResolveSymbolicLink` | src/symlink.cpp:62-77 | Fails exactly for chains of more than 1001 links; otherwise the answer is the end of the way through enabled links, with one reference moved from the input to it and every other count unchanged |
| `SymLinks.Namespace.CreateSymbolicLink` | src/symlink.cpp:25-43 | The new enabled link with its name at the head of the list, or no change at all with the status for a missing allocation or a name in use |
| `SymLinks.Namespace.DeleteSymbolicLink` | src/symlink.cpp:47-59 | A link loses all its names with their references; what is found and is not a link keeps one reference too many |
| `SymLinks.Namespace.SetDeviceInterfaceState` | src/symlink.cpp:101-116 | Only the link's state changes, and the status tells whether it did |
| `SymLinks.Namespace.FindName` | src/name.cpp:56-66 | The object of the first name equal under case folding whose object is alive, and nothing exactly if there is no such name |
| `SymLinks.Namespace.LookupName` | src/name.cpp:158-170 | What is found comes with one reference, and nothing else changes |
| `SymLinks.Namespace.CreateName` | src/name.cpp:69-102 | The object already of that name with the caller's reference moved to it, or a new name at the head of the list with a reference of its own |
| `SymLinks.Namespace.InsertName` | src/name.cpp:105-115 | Whether the name was free; if not, only the caller's reference is given up |
| `SymLinks.Namespace.RemoveObjectName` | src/name.cpp:138-155 | Every name of the object is unlinked with its reference, the others stay in order |
| `SymLinks.Namespace.Dereference` | src/object.cpp:191-195 | One reference less, and the object is gone exactly if it was the last |
| `Registry.AllDeliveredExactlyWhen` | src/registry.cpp:630-661 | Every value is delivered once and in order exactly when all names fit and all queries succeed; deletion that succeeds then leaves the key empty, no deletion leaves it as it is |
| `Registry.VisitEndsWhen` | src/registry.cpp:638-652 | A visit ends exactly for lack of values, at the first query that fails, or before a name of 1024 characters or more |
| `Registry.KeptUnlessDeleted` | src/registry.cpp:651-653 | Exactly the values delivered with success and then deleted are gone, the others stay in order |
| `Registry.FirstAreDelivered` | src/registry.cpp:630-661 | Whatever fails, what was delivered are the first values of the key |
| `Registry.OnlyDeliveredAreDeleted` | src/registry.cpp:651-653 | What was not delivered is kept, in order |
| `Registry.Key.QueryEnumerateValues` | src/registry.cpp:630-661 | The loop over wrapping indexes delivers, keeps and answers what visiting the values in order does; with REQUIRED, not found exactly if nothing could be visited |
| `RegistryStrings.QueryValue` | src/registry.cpp:678-692 | Ends within three reads of a stable value, and tells how many for one that never changes; the data is followed by six zero bytes |
| `RegistryStrings.PaddedEndsInZeros` | src/registry.cpp:690-691 | Whatever the data, the padded buffer ends in two zero characters |
| `RegistryStrings.WidenMeans` | src/registry.cpp:750 | Characters are pairs of bytes with the low byte first |
| `RegistryStrings.SplitEncodedExactly` | src/registry.cpp:750-777 | Splitting an encoded list, whatever follows it, gives it back exactly if it holds no empty string and no NUL |
| `RegistryStrings.EncodedAtFront` | src/registry.cpp:750-777 | Whatever a padded buffer holds, what is split off is the list encoded at its front |
| `RegistryStrings.RoundTripExactlyWhen` | src/registry.cpp:738-777 | A list stored and read into the padded buffer reaches the query routine string by string exactly under that condition |
| `RegistryStrings.CallsAreSplit` | src/registry.cpp:750-777 | The calls of the query routine are for the strings in order and end exactly at the first one that fails, or at the end of the list |
| `RegistryStrings.QueryCallback` | src/registry.cpp:738-777 | Data that is not expanded is passed on whole; a list is split inside the padded buffer, one call a string up to and with the first that fails; a single string is one call, an empty one none |
| `RegistryStrings.MeasuredExactlyWhen` | src/registry.cpp:885-891 | Measuring an encoded list of plain strings gives its length exactly when the list is not empty |
| `RegistryStrings.GetDefaultLength` | src/registry.cpp:885-891 | The least end of a list, or the length of a single string with its NUL |

## Left out

- Words: a `ULONG` of a bitmap is its 32 bits, and `1 << n` is masked to five bits; there is no wrap at 2^32 in a start plus a length.
- Detour regions, slots and intercepts are values in fields of the registry that its methods reassign; the `next` pointers of their lists are the order of sequences, so aliasing between nodes is not modelled.
- Both detach calls share one walk with a selector; the source writes the same walk twice.
- Patching code, trampolines, the wrapper and the sizes of other architectures: an update of a detour succeeds or fails.
- A fresh region is taken to be zero-filled and within jump bounds of the function it was asked for.
- Device objects have a heap object each, but their links are reasoned about as one map; the alignment requirement that attaching copies is not modelled.
- Packets have 0 to 127 locations, not a negative number of them; what the completion loop does once it has left the stack is not modelled beyond its tests; calling a driver needs a location to be left; skipping a location and the unlocking of memory after completion are not modelled.
- A completion routine's effect on its request is the status, the cancel flag and the pending mark; sending the request on from inside a routine that stops it is a call after the stop.
- Protocol states are sequentially consistent and their counts do not wrap; memory freed after the remove lock drained is not modelled.
- `RemoveLockObject.Lock.ReleaseRemoveLockAndWait`: a wait looks at most `patience` times and says whether it got through; that it gets through is `RemoveLock.RemoverReturns`. The other waits of the object modules are bounded in the same way.
- `DpcObject.Dpcs.InsertQueueDpc`: a call that has not got the critical section within its patience says so.
- `DpcObject.Dpcs.RemoveQueueDpc`: a call that has not got the critical section, or still waits, within its patience says so.
- The arguments a DPC routine sees, periodic timers, the tolerance of waits and their time limits.
- `SemaphoreObject.Semaphores.WaitStatus`: mutexes among the objects are in `MutexObject`, one at a time; a mutex abandoned by its owner is not recorded by the source and not modelled.
- Name look-up takes complete paths and folds case by an arbitrary function; freed objects that still have names, and races of releasing with looking up, are not modelled; `DdkIsDeviceInterface` and `DdkRemoveName` would only add easy members.
- Registry calls are a sequence of named values; statuses other than success, not found and lack of memory are one failure; `DWORD` lengths of the read loop do not wrap; the validation of flags, direct queries, default types and environment expansion are not modelled.
- Everything the files not named above do: loading and patching images, files, exceptions, initialisation, allocation, strings, and thin wrappers of library calls.
