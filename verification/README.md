# Proofs about an seL4 kernel and its tools

A Dafny model of the hardest parts of this seL4 kernel and of the tools it is built with, with proofs
of what they promise. `dafny verify dfyconfig.toml` checks all of it.

**The capability derivation tree** (`Caps`, `AATree`, `CdtSlots`, `Derivation`, `CdtSearch`,
`CdtTraverse`, `CdtLifetime`, `CdtMapping`, `CdtDeletion`, `CdtDescendants`). All capability slots hang
in one AA tree, ordered by comparators that depend on the kind of capability. `Caps` shows that the
comparators are a strict total order of the slots, and the coarse comparators of the searches
monotone quotients of it. `AATree` has the tree algorithms as functions on trees with their order
and balance; `CdtSlots` is the code on linked slots, in place, equal to those functions.
`Derivation.Cdt` is the tree as the kernel uses it. The main results are that answers found from a
few tree steps are answers about the whole tree: whether a cap is the last one to its object, and
whether it has descendants. On these rest deletion and revocation in `CdtDeletion`, with what
finalising a cap does to other slots: revocation removes exactly the descendants and the interrupt
nodes whose last handler is among them. `CdtMapping` is the use of the tree as the record of which cap
a page table entry came from.

**Scheduler, IPC and reply capabilities** (`TcbQueues`, `ReadyQueues`, `Scheduler`, `Endpoints`,
`KernelSpec`, `EntrySpec`, `Kernel`, `Entry`). Doubly linked queues, the two-level bitmap, the scheduler
action, synchronous and asynchronous endpoints and reply capabilities, as objects whose methods are the
kernel's functions. `Entry.Enter` is a kernel entry, from the exception to the return to user code,
`Entry.Run` any number of them, and `Entry.BootAndRun` any number of them after start-up. There are two
results. The first is refinement: `KernelSpec` and `EntrySpec` say what every operation and every entry
does to sequences and maps, with no links, words or bitmaps, down to the place in the ready queues, and the
code comes to exactly that (`Kernel.Kernel.Now` is the value of the state). What the design promises of it is
proved of these functions: who runs after a message, a signal, a yield or a tick, that a call is answered
once and by the thread that was called, that no signal is lost, that senders are served in order. The second
is an invariant of every state that these events reach: at each return to user code the current thread is
running or idle, nothing that can run has a higher priority, the ready queues hold exactly the other
threads that can run, every blocked thread is in the queue of the object it waits on and that
object's state says so, and every reply cap is the only one of a thread that waits for that reply.
The kernel's own assertions in this code, and its `fail` branches, are proved unreachable. The one
event that does not come back is the deletion or the swap of a slot that holds a reply cap: it comes
to an assertion in the derivation tree, and `Entry.Enter` says so if and only if.

**Algorithms of the tools and of boot.** The set propagation of the LALR parser generator (`Digraph`),
with the sharing of Python lists that it depends on; the profiler's hash table (`TableSize`,
`Profiler`); the splitting of memory into untyped blocks (`BootUntypeds`); the marshalling of the
system call stubs (`StubMarshal`); and the bitfield compiler (`Bitfield`).

Properties that the code does not have are stated with the exact condition under which it has them:

- `Entry.SignalWhileIdle`: the idle thread can stay current although a thread is ready; if and only if
  that thread has priority 0.
- `Scheduler.PriorityStep`: setPriority on another thread can leave a thread ready that is above the
  running one; it does not if and only if that thread cannot run or the new priority is not above.
- `Kernel.Kernel.Bind`: a binding to an async endpoint that already has a thread leaves the first
  thread's binding one-sided; bindings stay mutual if and only if the async endpoint had no thread.
- `CdtMapping.HasExtraMisses`: for every mapped cap there is a tree in which cdtFindWithExtra misses a match.
  `CdtSearch.CdtFindWithExtra` misses only caps that are mapped lower than the one looked for, so none if
  that one is unmapped. The guard of the page table invocation passes mapped caps too:
  `CdtMapping.MapPageTable` says that a cap it lets through has its page table unmapped if and only if it
  is unmapped itself, and that it lets every only cap through.
- `CdtDescendants.CopyIsDescendant`: a copy is not always a descendant; it is if and only if it has a new
  badge or the depth field had room.
- `CdtDeletion.RevokingTakesMore`: revoking the interrupt control cap deletes caps that are not its
  descendants; `CdtDeletion.RevokingIrqControl` says that it does not if and only if no interrupt with a
  handler cap is delivered to an async endpoint, and `CdtDeletion.RevokesOnlyDescendants` that no other
  cap does.
- `CdtDeletion.CteDelete` and `CdtDeletion.RotateInPlace`: deleting a slot, or swapping two, comes to the
  assertion on unknown caps; if and only if there is a reply cap in it.
- `CdtDeletion.PageOfUnmappedTable` and `CdtDeletion.RemapThenDelete`: deleting a mapped page, or the last
  cap to a page table or page directory with entries, comes to an assertion that a search succeeds. By
  `CdtDeletion.CteDelete` it fails if and only if the page table in question is not mapped, or an entry of
  the table is recorded in no cap; mapping a page table a second time is a way to get there.
- `Digraph.SharedListIsInexact`: with lists shared between nodes a set can hold too much;
  `Digraph.Propagation.Run` is exact if nodes that share a list have the same union, and without cycles
  through several nodes only then.
- `Digraph.FollowSetsInexact`: the follow sets, which are propagated on the lists that the read sets left
  behind, can hold too much; by `Digraph.FollowSets` they do not if the nodes of each cycle of the first
  relation have one follow set, and only then if the second relation has no cycle through several nodes.
- `Profiler.Profiler.RecordSample`: a zero program counter is neither counted nor dropped.
- `BootUntypeds.SplitCoarse`: the assertion on the size of untyped blocks holds if and only if the region
  starts and ends at multiples of 16.
- `Bitfield.Accessors`: a field reads back the whole value if and only if it fits.

How C is rendered: a TCB or slot pointer is a number or an object, NULL is zero or null; a TCB field of
all TCBs is a map; a bitmap word, or an integer of the bitfield compiler, is the set of the positions of
its one bits; badges are 32-bit vectors. The build modelled is ARM with one scheduling domain and the
constants of its default configuration. Ghost fields (`contents`, `ready`, `q`, `pending`, `recorded`)
hold the abstract value that each method's contract is about.

## Model

| member | source | states |
|---|---|---|
| Caps.CompSlotIsLess | kernel/src/kernel/cdt.c:47-332 | the cascade of type-dependent comparators is the lexicographic order of ranks (space, address, size or badge, depth, extra, slot address), and says EQ only for the same rank |
| Caps.LessIsTotalOrder | kernel/src/kernel/cdt.c:313-332 | that order is irreflexive, transitive and total |
| Caps.CoarseComparators | kernel/src/kernel/cdt.c:388-555 | the comparators that ignore the slot, ignore everything from the depth down, or break ties downwards are monotone quotients of the order |
| Caps.HasExtraComparator | kernel/src/kernel/cdt.c:334-350 | on exactly which slots the comparator for mapped caps says EQ, LT and GT, and that against an unmapped cap its LT agrees with the order |
| Caps.CapsEqualKeepsRank | kernel/src/kernel/cdt.c:37-45 | caps that capsEqual accepts have the same place in the order |
| Caps.ObjectMemory | kernel/include/object/structures.h:291-388 | a TCB lies in its aligned block, and the size in bytes of every kind of object |
| AATree.SkewInOrder | kernel/src/kernel/cdt.c:1047-1074 | a skew keeps the in-order sequence |
| AATree.SplitInOrder | kernel/src/kernel/cdt.c:1004-1045 | a split keeps the in-order sequence |
| AATree.RebalanceInOrder | kernel/src/kernel/cdt.c:952-977 | so does the whole rebalancing |
| AATree.InsertInOrder | kernel/src/kernel/cdt.c:847-885 | insertion puts the new item at its place in the in-order sequence and moves nothing else |
| AATree.InsertOrdered | kernel/src/kernel/cdt.c:847-885 | an ordered tree stays ordered |
| AATree.InsertBalanced | kernel/src/kernel/cdt.c:847-885 | a balanced tree stays balanced, and its level grows by at most one |
| AATree.RemoveInOrder | kernel/src/kernel/cdt.c:887-950 | removal takes exactly the target out of the in-order sequence, with predecessor or successor replacement |
| AATree.RemoveNodeInOrder | kernel/src/kernel/cdt.c:918-950 | removing the root of a subtree does so |
| AATree.RemoveBalanced | kernel/src/kernel/cdt.c:887-950 | a balanced tree stays balanced under removal, and its level shrinks by at most one |
| AATree.RemoveNodeBalanced | kernel/src/kernel/cdt.c:918-950 | the same for the root of a subtree |
| AATree.RebalanceShortLeft | kernel/src/kernel/cdt.c:952-1002 | level decrease, three skews and two splits restore balance when the left side has become short |
| AATree.RebalanceShortLeftBeside | kernel/src/kernel/cdt.c:952-1002 | also when the right child is on the same level |
| AATree.RebalanceShortRight | kernel/src/kernel/cdt.c:952-1002 | and when the right side has become short |
| AATree.LevelBound | kernel/src/kernel/cdt.c:1004-1045 | a balanced tree of level k has at least 2^k - 1 nodes |
| CdtSlots.LevelFits | kernel/src/kernel/cdt.c:1004-1045 | so the level field cannot overflow: the assertion in aaSplit holds |
| CdtSlots.AaSkew | kernel/src/kernel/cdt.c:1047-1074 | the links of the slots become those of the skewed tree |
| CdtSlots.AaSplit | kernel/src/kernel/cdt.c:1004-1045 | the links and the level become those of the split tree; the assertion holds |
| CdtSlots.AaDecLevel | kernel/src/kernel/cdt.c:979-1002 | the levels become those of the function on trees |
| CdtSlots.AaRebalance | kernel/src/kernel/cdt.c:952-977 | the links become those of the rebalanced tree |
| CdtSlots.AaSucc | kernel/src/kernel/cdt.c:742-752 | the leftmost slot of the right subtree |
| CdtSlots.AaPred | kernel/src/kernel/cdt.c:754-764 | the rightmost slot of the left subtree |
| CdtSlots.AaInsert | kernel/src/kernel/cdt.c:847-885 | insertion on the linked slots is insertion on the tree |
| CdtSlots.AaRemove | kernel/src/kernel/cdt.c:887-916 | removal on the linked slots is removal from the tree, in the swapped and the plain form |
| CdtSlots.AaRemoveNode | kernel/src/kernel/cdt.c:918-950 | the same for the root of a subtree |
| Derivation.Cdt.constructor | kernel/src/kernel/cdt.c:646-650 | the tree starts empty |
| Derivation.Cdt.InsertTree | kernel/src/kernel/cdt.c:646-650 | the slot is in the tree, every other slot keeps its cap and depth, order and balance hold |
| Derivation.Cdt.CdtInsert | kernel/src/kernel/cdt.c:652-668 | the new cap is one deeper than its parent, unless the depth field is full or the spaces differ |
| Derivation.Cdt.CdtRemove | kernel/src/kernel/cdt.c:670-676 | exactly the slot leaves the tree and its node is cleared |
| Derivation.Cdt.CdtMove | kernel/src/kernel/cdt.c:678-689 | the new slot takes the old slot's depth and the old slot leaves |
| Derivation.Cdt.CdtUpdate | kernel/src/kernel/cdt.c:691-702 | the cap changes, the depth does not, in place or by reinsertion |
| Derivation.Cdt.CdtSwap | kernel/src/kernel/cdt.c:704-729 | each cap carries its depth to the other slot, null caps included |
| Derivation.RecapTree | kernel/src/kernel/cdt.c:691-702 | the in-place shortcut of cdtUpdate leaves a valid tree |
| Derivation.DerivedDepthFits | kernel/src/kernel/cdt.c:652-668 | a cap derived from one of its own kind gets a depth that fits the depth field of its kind |
| Derivation.MovedDepthFits | kernel/src/kernel/cdt.c:670-702 | removal keeps all depths within their fields, and so do a move and an update that keep the kind of cap |
| CdtSearch.CdtFindAtDepth | kernel/src/kernel/cdt.c:406-435 | finds a cap of the given kind and depth if and only if there is one |
| CdtSearch.CdtFind | kernel/src/kernel/cdt.c:437-450 | finds one of the least depth, and null if and only if there is none as long as the depths fit their fields |
| CdtSearch.FindWithExtraAtDepth | kernel/src/kernel/cdt.c:356-384 | what it returns is mapped elsewhere; when it returns null every match of that depth is mapped lower than the cap looked for, so there is none if that is unmapped or none has its place in the order |
| CdtSearch.CdtFindWithExtra | kernel/src/kernel/cdt.c:352-386 | null if and only if the search path of every depth ends without a match; what it returns is a cap to the same object mapped elsewhere; every match that it misses, at a lesser depth or, when it returns null, at all, is mapped lower than the cap looked for |
| CdtMapping.HasExtraMisses | kernel/src/kernel/cdt.c:334-386 | for every mapped cap a valid tree of three slots, with no mapping recorded twice, is built on which the search returns null although one of them matches |
| CdtSearch.AaFindFromBelow | kernel/src/kernel/cdt.c:557-586 | the greatest slot not above the hypothetical cap, or null when there is none |
| CdtSearch.CdtFindChild | kernel/src/kernel/cdt.c:588-612 | null if and only if the cap has no descendant; otherwise the greatest descendant |
| CdtSearch.UnmappedLosesMapping | kernel/src/arch/arm/kernel/vspace.c:458-495 | taking the mapping out of a cap loses nothing else, rights included |
| CdtTraverse.AaParent | kernel/src/kernel/cdt.c:766-786 | the parent found by searching again from the root |
| CdtTraverse.AaTraverseForward | kernel/src/kernel/cdt.c:810-831 | the next slot in order, or null after the last |
| CdtTraverse.AaTraverseBackward | kernel/src/kernel/cdt.c:788-808 | the previous slot in order, or null before the first |
| CdtLifetime.GroupsAreConvex | kernel/src/object/objecttype.c:308-407 | the caps to one object are consecutive in the order |
| CdtLifetime.SameRegionContains | kernel/src/object/objecttype.c:308-322 | a cap to untyped memory or to a page is to the region of another if and only if every byte of the other is in its memory |
| CdtLifetime.SameObjectIs | kernel/src/object/objecttype.c:308-407 | caps are to one object if and only if they are of one kind, other than untyped and zombie, with one address and one size |
| CdtLifetime.NeighboursDecide | kernel/src/kernel/cdt.c:452-470 | some cap in the tree is to the same object if and only if one of the two neighbours is |
| CdtLifetime.CdtIsFinal | kernel/src/kernel/cdt.c:452-470 | true if and only if no other slot in the whole tree refers to the same object |
| CdtLifetime.ZombieKeepsAgreement | kernel/src/object/cnode.c:503-560 | turning the last cap into a zombie keeps the assumption that typed caps at one address are to one object |
| CdtDeletion.CteDeleteOne | kernel/src/object/cnode.c:626-642 | exactly the slot is emptied; the assertion that nothing remains of the cap holds |
| CdtDeletion.LastHandler | kernel/src/object/objecttype.c:195-206 | a cap is the last handler of an interrupt if and only if it is one and no other cap is to the same object |
| CdtMapping.FindTable | kernel/src/arch/arm/kernel/vspace.c:525-526 | the page table is found, as asserted, if and only if some cap to it is mapped |
| CdtMapping.TableOf | kernel/src/arch/arm/kernel/vspace.c:525-525 | the page table of an entry is the aligned block of a page table's size that the entry lies in |
| CdtMapping.MapPageTable | kernel/src/arch/arm/kernel/vspace.c:1012-1060 | the guard lets an unmapped cap through if and only if no cap to the page table is mapped, so one that it lets through mapped has its table mapped already, and the only cap to its table always gets through; an accepted cap records the new mapping in a valid tree and nothing else changes |
| CdtMapping.UnmapAll | kernel/src/arch/arm/kernel/vspace.c:458-502 | exactly the caps that record an entry of the table lose their mapping, each found by the asserted searches; an assertion fails if and only if some entry is recorded in no cap or the table is a page table that is not mapped |
| CdtDeletion.FinaliseCap | kernel/src/object/objecttype.c:89-211 | which other slots change when a cap is finalised: the node of a last interrupt handler, the mappings in a last table, and no others; an assertion fails if and only if a search fails that it is about |
| CdtDeletion.RemainderIs | kernel/src/object/objecttype.c:148-188 | finaliseCap leaves a zombie that is not removable if and only if the cap is the last to a CNode, other than one of one slot in that slot, or to a thread, or is a zombie with slots left besides its own; the zombie has the address, the size and the number of slots of the object |
| CdtDeletion.CteDeleteLeaf | kernel/src/object/cnode.c:451-538 | deletes the slot with exactly those changes; if and only if a zombie stays, as above, it is in the slot instead, at the old depth and with nothing else changed; exactly when an assertion fails |
| CdtDeletion.PageOfUnmappedTable | kernel/src/arch/arm/object/objecttype.c:97-106 | a page of any size, mapped or not, and a page table, mapped or not, for which it fails if and only if the page is small or large and mapped and the page table is not mapped |
| CdtDeletion.CteDelete | kernel/src/object/cnode.c:503-538 | an assertion fails if and only if the slot holds a reply cap, or a page table that is to be found is not mapped, or an entry of its last table is recorded in no cap; an empty slot stays; the rest as above |
| CdtDeletion.RemapThenDelete | kernel/src/arch/arm/kernel/vspace.c:458-495 | the only cap to a page table is mapped at any two places in turn, both times let through, and then deleting the only cap to the page directory fails |
| CdtDeletion.RotateInPlace | kernel/src/object/cnode.c:343-349 | two slots are swapped, unless one holds a reply cap, when the same assertion fails |
| CdtDeletion.DescendantIsLeaf | kernel/src/object/cnode.c:427-449 | a descendant of a cap other than an untyped one is never the last cap to an object that owns slots, nor to a table |
| CdtDeletion.CteRevoke | kernel/src/object/cnode.c:427-449 | terminates having removed exactly the descendants, when preempted the greatest of them, and the nodes of the interrupts whose last handler went; it fails only at a descendant mapped through a page table that is not mapped |
| CdtDeletion.RevokesOnlyDescendants | kernel/src/object/cnode.c:427-449 | revoking a cap other than the interrupt control cap removes nothing but its descendants |
| CdtDeletion.RevokingIrqControl | kernel/src/object/interrupt.c:189-198 | revoking the interrupt control cap does so if and only if no interrupt with a handler cap has a node that is not empty |
| CdtDeletion.RevokingTakesMore | kernel/src/object/interrupt.c:189-198 | a valid tree with interrupt nodes is built on which a finished revocation of the interrupt control cap has removed an async endpoint cap that is not a descendant |
| CdtDeletion.ClearIrqHandler | kernel/src/object/interrupt.c:179-187 | the node is empty and nothing else changes |
| CdtDeletion.SetIrqHandler | kernel/src/object/interrupt.c:168-177 | the node holds a cap derived from the slot instead of what it held, and the tree stays valid |
| CdtDescendants.UntypedDescendants | kernel/src/kernel/cdt.c:472-612 | for aligned blocks of at least 16 bytes, descendants are the blocks contained in the parent's, except blocks of its own extent that are not deeper |
| CdtDescendants.BlocksNest | kernel/src/kernel/cdt.c:66-81 | two aligned blocks are nested or disjoint |
| CdtDescendants.EndpointDescendants | kernel/src/kernel/cdt.c:472-531 | which caps are descendants of an endpoint cap, badged or not |
| CdtDescendants.AsyncEndpointDescendants | kernel/src/kernel/cdt.c:505-509 | which caps are descendants of an async endpoint cap, badged or not |
| CdtDescendants.IrqControlDescendants | kernel/src/kernel/cdt.c:472-531 | which caps are descendants of the interrupt control cap |
| CdtDescendants.OtherDescendants | kernel/src/kernel/cdt.c:472-531 | every other cap has as descendants the deeper caps to its object, and those of its depth that are mapped higher |
| CdtDescendants.CopyIsDescendant | kernel/src/kernel/cdt.c:652-668 | a copied or minted cap is a descendant if and only if it has a new badge or the depth field was not full, also where the copy loses the mapping |
| CdtDescendants.CopiesRunOut | kernel/src/kernel/cdt.c:652-668 | a copy of equal badge is a descendant if and only if the original is at depth 0 for frames and page tables, and at a depth below 31 for all other caps |
| CdtDescendants.FirstCopyIsDescendant | kernel/src/kernel/cdt.c:652-668 | a copy of the first cap to an object made from untyped memory is always its descendant |
| TcbQueues.Links.Append | kernel/src/object/tcb.c:147-161 | the thread is at the end of the queue, the other links of other queues are untouched |
| TcbQueues.Links.Prepend | kernel/src/object/tcb.c:64-73 | the thread is at the head of the queue |
| TcbQueues.Links.Dequeue | kernel/src/object/tcb.c:163-180 | the thread is out of the queue and the others keep their order |
| ReadyQueues.HighestBit | kernel/src/kernel/thread.c:327-328 | the highest one bit of a word |
| ReadyQueues.HighestMarked | kernel/src/kernel/thread.c:326-330 | the highest bits of the two bitmap levels name the highest priority with a thread |
| ReadyQueues.ReadyQueues.constructor | kernel/src/object/tcb.c:27-47 | no thread is queued and no bit is set |
| ReadyQueues.ReadyQueues.AddToBitmap | kernel/src/object/tcb.c:27-35 | the bitmap marks a queue that gets its first thread |
| ReadyQueues.ReadyQueues.RemoveFromBitmap | kernel/src/object/tcb.c:37-47 | the bitmap unmarks a queue that loses its last thread, and an emptied word |
| ReadyQueues.ReadyQueues.Enqueue | kernel/src/object/tcb.c:49-78 | the thread is at the head of the queue of its priority, once; bitmaps mirror the queues |
| ReadyQueues.ReadyQueues.Append | kernel/src/object/tcb.c:80-109 | the same at the end |
| ReadyQueues.ReadyQueues.Dequeue | kernel/src/object/tcb.c:111-145 | the thread is in no queue, the others keep their order |
| ReadyQueues.ReadyQueues.Choose | kernel/src/kernel/thread.c:326-333 | the two bit searches find the thread that a scan of all priorities from the top finds; null if and only if none is queued |
| Scheduler.ResumedIsAtUser | kernel/src/kernel/thread.c:67-91 | what is kept between scheduler operations gives what holds at the return to user code |
| Scheduler.IdleOnlyAboveLowest | kernel/src/kernel/thread.c:399-405 | the idle thread is current only while every thread that can run has priority 0 |
| Scheduler.PriorityStep | kernel/src/kernel/thread.c:369-380 | a new priority for another thread fits the current one if and only if it does not lift a thread that can run over it |
| Scheduler.NextInTurn | kernel/src/kernel/thread.c:442-453 | after the current thread has gone to the end of its queue, a scan finds the thread that was first in it |
| Scheduler.TakeOver | kernel/src/kernel/thread.c:288-311 | the chosen thread takes over with no thread that can run lost and none of higher priority left |
| Scheduler.Scheduler.constructor | kernel/src/kernel/boot.c:390-403 | the initial thread runs and the other threads are inactive |
| Scheduler.Scheduler.RescheduleRequired | kernel/src/kernel/thread.c:463-471 | a thread about to be switched to is queued instead, at the head |
| Scheduler.Scheduler.ScheduleTCB | kernel/src/kernel/thread.c:432-440 | if only the current thread's being unable to run is in the way, the scheduler's invariant is restored, and the action changes in no other case |
| Scheduler.Scheduler.SetRunnable | kernel/src/kernel/thread.c:425-430 | a thread that becomes runnable is the one thread still to be handed to the scheduler |
| Scheduler.Scheduler.SetBlocked | kernel/src/kernel/thread.c:425-430 | a thread that stops being runnable leaves the scheduler consistent |
| Scheduler.Scheduler.Deactivate | kernel/src/kernel/thread.c:101-102 | the thread is inactive and out of its ready queue, the others in their order |
| Scheduler.Scheduler.RestartAndQueue | kernel/src/object/endpoint.c:297-300 | one restarted thread is queued at the head before the choice is made |
| Scheduler.Scheduler.RescheduleAll | kernel/src/object/endpoint.c:302-302 | with all of them queued the entry will choose anew |
| Scheduler.Scheduler.PossibleSwitchTo | kernel/src/kernel/thread.c:382-411 | the target is switched to if and only if nothing else was decided and it has the higher, or on request the same, priority; otherwise it is at the head of its queue, and so is a thread that was to be switched to before |
| Scheduler.Scheduler.Wake | kernel/src/kernel/thread.c:413-430 | a blocked thread becomes runnable and is queued or switched to |
| Scheduler.Scheduler.ActivateThread | kernel/src/kernel/thread.c:67-91 | the current thread is running or idle; the failure branch is unreachable |
| Scheduler.Scheduler.SwitchToThread | kernel/src/kernel/thread.c:341-347 | the thread is current and not queued |
| Scheduler.Scheduler.ChooseThread | kernel/src/kernel/thread.c:313-339 | the first thread of the highest priority runs, or the idle thread if none is queued; both assertions hold |
| Scheduler.Scheduler.Schedule | kernel/src/kernel/thread.c:288-311 | which thread runs next, and the place of the one that stops: the head of its queue |
| Scheduler.Scheduler.SetPriority | kernel/src/kernel/thread.c:369-380 | the new priority and the place at the head of its queue, with the bound of decodeSetPriority |
| Scheduler.Scheduler.SetDomain | kernel/src/kernel/thread.c:356-367 | with one domain, the thread goes to the head of its own queue and the invariant is kept |
| Scheduler.Scheduler.Reset | kernel/src/object/objecttype.c:236-262 | zeroing an inactive thread gives it priority 0 and a new time slice and keeps the scheduler's invariant; it is in no ready queue, as asserted |
| Scheduler.Scheduler.Yield | kernel/src/api/syscall.c:363-369 | the current thread goes to the end of its queue |
| Scheduler.Scheduler.TimerTick | kernel/src/kernel/thread.c:442-461 | the time slice counts down, and at its end the thread goes to the end of its queue with a new one |
| Scheduler.Scheduler.RoundRobin | kernel/src/kernel/thread.c:442-453 | a timer interrupt at the end of a slice rotates the queue of the current priority by one |
| Endpoints.OneReplyCap | kernel/src/object/tcb.c:195-226 | no thread has two reply caps |
| Endpoints.WokenObjects | kernel/src/object/endpoint.c:226-351 | threads that leave a queue keep all endpoint and reply invariants |
| Endpoints.JoinedObjects | kernel/src/object/endpoint.c:46-69 | so does a thread that joins one |
| Endpoints.CallObjects | kernel/src/object/tcb.c:195-214 | so does the creation of a reply cap |
| Endpoints.UncallObjects | kernel/src/object/objecttype.c:125-135 | so does its end |
| Endpoints.UncallCaller | kernel/src/object/endpoint.c:261-277 | the cap a thread's master reply cap names is the only one there is for the thread |
| Endpoints.SaveObjects | kernel/src/object/cnode.c:395-410 | so does its move to another slot |
| Endpoints.SignalObjects | kernel/src/object/asyncendpoint.c:41-46 | the word of an async endpoint is the bitwise or of the signals since the last delivery |
| Endpoints.OrAllHas | kernel/src/object/asyncendpoint.c:41-46 | that word has a bit if and only if one of the signals has it |
| KernelSpec.CallAndReply | kernel/src/object/tcb.c:195-226 | a caller waits, its only reply cap is in the receiver's caller slot, and a reply through that slot makes it run and leaves the reply caps as they were |
| KernelSpec.RepliesOnce | kernel/src/kernel/thread.c:134-160 | a reply uses up the cap in its slot and no other, and a second reply through the slot does nothing |
| KernelSpec.SignalsAccumulate | kernel/src/object/asyncendpoint.c:41-112 | any sequence of signals that no thread is there for becomes pending, in order, and changes nothing else |
| KernelSpec.SignalsArrive | kernel/src/object/asyncendpoint.c:114-209 | the next thread to ask gets the bitwise or of all of them, and none is pending after |
| KernelSpec.ServedInOrder | kernel/src/object/endpoint.c:39-203 | of two senders on one endpoint the first is received from first, and both go on |
| Kernel.Kernel.constructor | kernel/src/kernel/boot.c:390-403 | all invariants hold at the start, in the initial state |
| Kernel.Kernel.Leave | kernel/src/object/tcb.c:163-180 | a thread leaves the queue of an object, which becomes idle with its last one |
| Kernel.Kernel.Join | kernel/src/object/tcb.c:147-161 | a thread joins the end of the queue of an object |
| Kernel.Kernel.DeleteReplyCap | kernel/src/object/tcb.c:216-226 | the reply cap is gone and its thread's master knows |
| Kernel.Kernel.IpcCancel | kernel/src/object/endpoint.c:226-279 | the thread waits for nothing and has no reply cap; the others in its queue keep their order |
| Kernel.Kernel.CancelReply | kernel/src/object/endpoint.c:261-277 | every reply cap for the thread is gone, and no other |
| Kernel.Kernel.LeaveInactive | kernel/src/object/asyncendpoint.c:175-195 | the thread is inactive and out of the queue; the endpoint was not idle or the async endpoint was waiting, as asserted |
| Kernel.Kernel.Suspend | kernel/src/kernel/thread.c:93-103 | the thread is inactive, in no queue, with no reply cap for it or in its caller slot; nothing else changes |
| Kernel.Kernel.Restart | kernel/src/kernel/thread.c:105-115 | a blocked thread restarts and is handed to the scheduler; any other is left alone |
| Kernel.Kernel.SetupReplyMaster | kernel/src/object/cnode.c:678-689 | the thread has a master reply cap |
| Kernel.Kernel.SetupCallerCap | kernel/src/object/tcb.c:195-214 | the sender waits for the reply and its one reply cap is in the receiver's caller slot; the assertions hold |
| Kernel.Kernel.AwaitReply | kernel/src/object/endpoint.c:99-106 | a caller without the right to grant a reply is stopped |
| Kernel.Kernel.SendIPC | kernel/src/object/endpoint.c:39-111 | the first receiver gets the message and runs, or the sender queues last, or nothing happens; the receiver is switched to if and only if its priority is not below the sender's, and is in its ready queue otherwise |
| Kernel.Kernel.SendBlock | kernel/src/object/endpoint.c:44-69 | the sender queues last with its badge and rights |
| Kernel.Kernel.SendDeliver | kernel/src/object/endpoint.c:71-109 | the first receiver runs with the badge, switched to as above, and the sender goes on, waits for the reply or is stopped |
| Kernel.Kernel.ReceiveIPC | kernel/src/object/endpoint.c:113-203 | pending signals of the bound async endpoint first, then the first sender, else the receiver queues last |
| Kernel.Kernel.ReceiveFrom | kernel/src/object/endpoint.c:154-200 | the first sender's badge is delivered, and the sender goes on, waits for the reply or is stopped; it is switched to if and only if its priority is higher |
| Kernel.Kernel.ReceiveBlock | kernel/src/object/endpoint.c:132-152 | the receiver queues last |
| Kernel.Kernel.ReceiveAsyncIPC | kernel/src/object/asyncendpoint.c:114-154 | all pending signals at once, else zero for a poll, else the thread queues last |
| Kernel.Kernel.TakeSignals | kernel/src/object/asyncendpoint.c:197-209 | the badge delivered is the bitwise or of exactly the pending signals, and none is pending after |
| Kernel.Kernel.AddSignal | kernel/src/object/asyncendpoint.c:41-46 | one more signal is pending |
| Kernel.Kernel.SignalBound | kernel/src/object/asyncendpoint.c:54-62 | the bound thread leaves the endpoint it receives on and runs with the badge, switched to if and only if its priority is not below |
| Kernel.Kernel.SendAsyncIPC | kernel/src/object/asyncendpoint.c:49-112 | a signal goes to the first waiting thread, which is switched to if and only if its priority is higher, or to the bound thread that is receiving, or becomes pending; none is lost |
| Kernel.Kernel.Deliver | kernel/src/object/endpoint.c:83-97 | a thread taken from a queue runs with the badge, and is switched to or queued by its priority |
| Kernel.Kernel.ResumeCaller | kernel/src/kernel/thread.c:140-157 | how the caller goes on after a reply or the reply to its fault |
| Kernel.Kernel.DoReplyTransfer | kernel/src/kernel/thread.c:134-160 | the caller was waiting, goes on, switched to if and only if its priority is not below, and the reply cap is used up |
| Kernel.Kernel.CancelAll | kernel/src/object/endpoint.c:281-306 | every thread of the queue restarts and is queued at the head of its ready queue, one after the other; the queue is empty |
| Kernel.Kernel.CancelQueue | kernel/src/object/asyncendpoint.c:156-173 | the same for a queue that is not empty |
| Kernel.Kernel.RestartAll | kernel/src/object/endpoint.c:296-302 | the loop over the linked threads restarts exactly them and queues them in order |
| Kernel.Kernel.CancelBadgedSends | kernel/src/object/endpoint.c:308-351 | exactly the senders with the badge restart, the others stay queued in their order |
| Kernel.Kernel.RestartBadged | kernel/src/object/endpoint.c:327-337 | the loop that unlinks while it walks leaves the order-preserving filter |
| Kernel.PickedMembers | kernel/src/object/endpoint.c:327-337 | what that filter keeps and drops |
| Kernel.Kernel.Unbind | kernel/src/object/asyncendpoint.c:211-221 | the thread has no async endpoint, and the one it had has no thread |
| Kernel.UnboundThread | kernel/src/object/asyncendpoint.c:211-221 | after that no async endpoint has the thread, and mutual bindings stay mutual |
| Kernel.Kernel.Bind | kernel/src/object/asyncendpoint.c:223-228 | mutual bindings stay mutual if and only if the async endpoint had no thread |
| Kernel.Kernel.DeleteAsyncEndpoint | kernel/src/object/objecttype.c:110-123 | the async endpoint has no thread, and every waiting thread restarts |
| Kernel.Kernel.DeleteThread | kernel/src/object/objecttype.c:162-177 | the thread is unbound, inactive, without reply caps for it or in its caller slot, and without its master; the assertion holds |
| Kernel.Kernel.ResetThread | kernel/src/object/objecttype.c:236-262 | a thread that is created or recycled has priority 0 and no fault, is in no ready queue, as asserted, and every invariant is kept |
| Kernel.Kernel.ResetAsyncEndpoint | kernel/src/object/objecttype.c:549-554 | an async endpoint that is created is idle with no signal pending, and every invariant is kept |
| Kernel.Kernel.MoveReplyCap | kernel/src/object/cnode.c:395-410 | a reply cap moves from any slot to an empty one and its master follows it |
| Kernel.Kernel.SaveCaller | kernel/src/object/cnode.c:357-383 | the reply cap in the caller slot moves to the destination, or nothing happens |
| Kernel.Kernel.RotateReplyCaps | kernel/src/object/cnode.c:343-355 | reply caps among three slots rotate, and every invariant is kept |
| Kernel.Kernel.HandleDoubleFault | kernel/src/kernel/faulthandler.c:105-119 | the faulting thread stops |
| Kernel.Kernel.HandleFault | kernel/src/kernel/faulthandler.c:18-67 | the fault is sent to the handler as a call, or the thread stops |
| Kernel.Kernel.HandleReply | kernel/src/api/syscall.c:274-307 | the reply goes to the thread whose reply cap is in the caller slot, or nothing happens; the assertion holds |
| Kernel.Kernel.HandleWait | kernel/src/api/syscall.c:309-361 | the old reply cap goes before a wait on an endpoint; every other case is a wait on an async endpoint or a fault |
| Entry.EndEntry | kernel/src/api/syscall.c:433-434 | schedule and activateThread make the thread decided on, or else the first of the highest priority, or else the idle thread, current, and establish what holds at the return to user code |
| Entry.HandleInterrupt | kernel/src/object/interrupt.c:206-230 | a signal, a timer tick with its effect on the time slice and the ready queue, or nothing |
| Entry.DoWork | kernel/src/object/objecttype.c:100-193 | what finalising, recycling or creating an object does to threads, queues, reply caps, pending signals, priorities and bindings |
| Entry.DoAll | kernel/src/object/cnode.c:503-557 | a sequence of such work does one after the other, and leaves its caller marked for restart or stopped |
| Entry.Perform | kernel/src/object/objecttype.c:605-722 | the effect of each invocation that does not come to the assertion on reply caps; nothing when it is not allowed |
| Entry.HandleInvocation | kernel/src/api/syscall.c:200-272 | the effect of the invocation with the caller marked for restart; it goes on running after it, or, if preempted, is still marked or was stopped |
| Entry.HandleSyscall | kernel/src/api/syscall.c:371-431 | the effect of each system call and fault: the invocation, the wait, the reply before the wait, the yield |
| EntrySpec.SendRuns | kernel/src/kernel/thread.c:382-411 | after a message to a waiting thread the receiver is current if and only if its priority is not below the sender's, and the other of the two is first in its ready queue |
| EntrySpec.SignalRuns | kernel/src/object/asyncendpoint.c:77-99 | after a signal to a waiting thread that thread is current if and only if its priority is higher, and otherwise first in its ready queue |
| EntrySpec.ReplyRuns | kernel/src/kernel/thread.c:134-160 | after a reply the thread that waited for it is current if and only if its priority is not below the replier's, and the other of the two is first in its ready queue |
| EntrySpec.ReceiveRuns | kernel/src/object/endpoint.c:154-200 | after a message is taken from a waiting sender, the sender is current if and only if its priority is higher, and the other of the two is first in its ready queue |
| EntrySpec.YieldTurns | kernel/src/api/syscall.c:363-369 | after a yield the next thread of that priority is current and the queue has rotated by one |
| EntrySpec.TickTurns | kernel/src/kernel/thread.c:442-461 | a tick counts the time slice down and does nothing else, or, at its end, does what a yield does and gives a new one |
| EntrySpec.WorkSparesCaller | kernel/src/object/cnode.c:503-557 | deleting objects leaves a thread that is marked for restart marked, or stops it |
| Entry.AtRestIsResting | kernel/src/api/syscall.c:433-434 | at every return to user code the assumptions of these hold |
| Entry.Enter | kernel/src/api/syscall.c:33-437 | every entry does exactly what EntrySpec.Entering says and comes back to a state in which all the invariants hold, except that one comes to an assertion if and only if it deletes or swaps a slot with a reply cap |
| Entry.SignalWhileIdle | kernel/src/object/asyncendpoint.c:77-99 | the idle thread stays current with the woken thread ready if and only if that thread has priority 0 |
| Entry.Run | kernel/src/api/syscall.c:371-437 | any sequence of entries, up to the first that comes to that assertion, does what EntrySpec.Entering says one after the other, and all the invariants hold after it; all of them are taken if there is none |
| Entry.Boot | kernel/src/kernel/boot.c:390-401 | start-up ends in the initial state, in which all the invariants hold |
| Entry.BootAndRun | kernel/src/api/syscall.c:371-437 | the same for every such sequence that follows start-up |
| Digraph.Propagation.constructor | kernel/tools/yacc.py:1901-1906 | no node is visited |
| Digraph.Propagation.Traverse | kernel/tools/yacc.py:1911-1931 | a traversal finishes a component or leaves its nodes on the stack, with everything seen so far collected |
| Digraph.Propagation.Merge | kernel/tools/yacc.py:1922-1923 | the missing elements are appended to the list, in place |
| Digraph.Propagation.PopComponent | kernel/tools/yacc.py:1924-1931 | the component is finished and its nodes share one list |
| Digraph.RootComplete | kernel/tools/yacc.py:1924-1931 | when N[x] is still the depth of x, the list of x holds the sets of everything it reaches |
| Digraph.Propagation.Run | kernel/tools/yacc.py:1901-1909 | each set holds the union over the reachable nodes and nothing from outside what list sharing connects; nodes of a component share one list, that of a node of the component; exactly the union if nodes that share a list have the same union, and without cycles through several nodes only then |
| Digraph.UnionEquation | kernel/tools/yacc.py:1885-1899 | the union over the reachable nodes solves F(x) = FP(x) united with F(y) for the successors y |
| Digraph.UnionIsLeast | kernel/tools/yacc.py:1885-1899 | and is contained in every other solution |
| Digraph.WideAddsNothing | kernel/tools/yacc.py:1914-1916 | if nodes that share a list have the same union, the two bounds coincide |
| Digraph.SharersInComponents | kernel/tools/yacc.py:1924-1931 | they have it if nodes share lists only within their component |
| Digraph.ExactOnlyIf | kernel/tools/yacc.py:1914-1931 | without cycles through several nodes an exact result means that they have it |
| Digraph.SharedListIsInexact | kernel/tools/yacc.py:2306-2310 | a run on three nodes, two of them with one list, after which a set holds more than its union |
| Digraph.FollowSets | kernel/tools/yacc.py:2284-2310 | the two propagations in sequence on shared lists: each follow set holds the read sets of everything included; exactly these if the nodes of a component of the first relation have one follow set, and only then if the second relation has no cycle through several nodes |
| Digraph.SharersAreComponents | kernel/tools/yacc.py:1924-1931 | after a first run on lists of their own, the nodes that share a list agree in the second run if and only if the nodes of each component of the first relation have one follow set |
| Digraph.SingleNodesAgree | kernel/tools/yacc.py:2284-2310 | they have one, so that the follow sets are exact, if the first relation has no cycle through several nodes |
| Digraph.FollowSetsInexact | kernel/tools/yacc.py:2284-2310 | two relations on which the follow sets hold more than they should |
| TableSize.IsPrime | kernel/include/machine/profiler.h:26-33 | the size of the profiler's table is prime |
| Profiler.ProbesDiffer | kernel/src/machine/profiler.c:138-148 | a probe sequence does not repeat before it has visited the whole table |
| Profiler.ProbesAreUsed | kernel/src/machine/profiler.c:154-180 | so probes that meet no free slot are no more than the entries, and the search ends |
| Profiler.NotInTable | kernel/src/machine/profiler.c:162-168 | a search that ends at a free slot shows that the program counter has no slot |
| Profiler.Profiler.constructor | kernel/src/machine/profiler.c:94-102 | an empty table |
| Profiler.Profiler.Reset | kernel/src/machine/profiler.c:94-102 | an empty table again |
| Profiler.Profiler.RecordSample | kernel/src/machine/profiler.c:136-181 | one slot for each program counter, with the count of its samples; a sample is dropped if and only if it is a new one in a full table; zero is neither |
| Profiler.Profiler.Hit | kernel/src/machine/profiler.c:156-160 | the count of the slot goes up by one |
| Profiler.Profiler.Miss | kernel/src/machine/profiler.c:162-175 | a free slot is claimed, or the sample dropped |
| Profiler.Profiler.RecordAll | kernel/src/machine/profiler.c:107-181 | over any run, reported counts plus drops are the samples with a non-zero program counter |
| BootUntypeds.SplitTiles | kernel/src/kernel/boot.c:463-491 | the blocks cover the region without gap or overlap |
| BootUntypeds.SplitAligned | kernel/src/kernel/boot.c:475-484 | every block is naturally aligned and in the region |
| BootUntypeds.SplitShape | kernel/src/kernel/boot.c:475-490 | the block sizes rise strictly up to a peak, and from the block after it on fall strictly |
| BootUntypeds.SplitBounded | kernel/src/kernel/boot.c:463-491 | there are at most 64 of them |
| BootUntypeds.SplitCoarse | kernel/src/kernel/boot.c:486-486 | the assertion on the size holds for every block if and only if the region starts and ends at multiples of 16 |
| BootUntypeds.BootInfo.constructor | kernel/src/kernel/boot.c:495-503 | no cap is provided yet |
| BootUntypeds.BootInfo.ProvideUntypedCap | kernel/src/kernel/boot.c:414-434 | when a block is provided, when it is silently dropped and when that fails |
| BootUntypeds.BootInfo.CreateUntypedsForRegion | kernel/src/kernel/boot.c:452-493 | terminates having provided the blocks in order as far as there is room, without the first page of the kernel window; when it fails |
| StubMarshal.AcceptedSizes | kernel/libsel4/tools/syscall_stub_gen.py:283-284 | accepted sizes divide a word or are whole words |
| StubMarshal.AlignUp | kernel/libsel4/tools/syscall_stub_gen.py:258-262 | the least multiple not below the number |
| StubMarshal.PositionsLayout | kernel/libsel4/tools/syscall_stub_gen.py:264-293 | parameters are disjoint and in order, none crosses a word, no word between is empty, and each is at the least multiple of its alignment that is not below the end of the one before |
| StubMarshal.TightIsUnique | kernel/libsel4/tools/syscall_stub_gen.py:264-293 | there is only one such placement |
| StubMarshal.GetParameterPositions | kernel/libsel4/tools/syscall_stub_gen.py:264-293 | the loop computes that placement |
| StubMarshal.GenerateParamCode | kernel/libsel4/tools/syscall_stub_gen.py:318-359 | the expressions of a parameter set its bits of the message and no others |
| StubMarshal.FillWords | kernel/libsel4/tools/syscall_stub_gen.py:365-368 | all parameters are placed, or the index error if and only if they do not fit |
| StubMarshal.Collect | kernel/libsel4/tools/syscall_stub_gen.py:370-371 | leaving out the empty words shifts no index |
| StubMarshal.Marshal | kernel/libsel4/tools/syscall_stub_gen.py:310-371 | every bit of the message is the bit of the parameter that covers it |
| StubMarshal.UnmarshalSingleParam | kernel/libsel4/tools/syscall_stub_gen.py:384-406 | reads the bits of the message at the parameter's place |
| StubMarshal.Unmarshal | kernel/libsel4/tools/syscall_stub_gen.py:373-415 | does so for all parameters |
| StubMarshal.RoundTrip | kernel/libsel4/tools/syscall_stub_gen.py:310-415 | unmarshalling the marshalled words returns every parameter, cut to its size |
| Bitfield.LayOut | kernel/tools/bitfield_gen.py:2103-2124 | the named fields of a block with their offsets from the top down, and the size of the block with its padding |
| Bitfield.FieldsApart | kernel/tools/bitfield_gen.py:2113-2118 | different fields have no bit in common |
| Bitfield.EndsInBlock | kernel/tools/bitfield_gen.py:2106-2118 | every field ends inside the block |
| Bitfield.FieldsCover | kernel/tools/bitfield_gen.py:2113-2118 | every bit belongs to one declaration, and is in a field if and only if that is not padding |
| Bitfield.EndpointBlock | kernel/include/object/structures.bf:121-131 | the kernel's endpoint block, with padding over two words, has these fields and is accepted |
| Bitfield.GetSet | kernel/tools/bitfield_gen.py:235-268 | a written field reads back as the part of the value it can hold, high-aligned or not |
| Bitfield.GetOther | kernel/tools/bitfield_gen.py:260-268 | writing a field leaves a field that has no bit in common with it |
| Bitfield.Accessors | kernel/tools/bitfield_gen.py:2451-2502 | in an accepted block a written value is read back entirely if and only if it fits, and every other field keeps its value |
| Bitfield.CheckClasses | kernel/tools/bitfield_gen.py:2065-2092 | accepts exactly masks in their fields that grow with the width, the first not zero, none repeated before the last |
| Bitfield.CheckValue | kernel/tools/bitfield_gen.py:1941-1978 | accepts exactly the values that match the narrower masks and not their own |
| Bitfield.DecodesTag | kernel/tools/bitfield_gen.py:361-376 | the generated cascade of mask tests decodes every accepted tag, whatever the other bits of the word |

## Left out

- The x86 capabilities, comparators and address spaces; the ARM build has none of them.
- Untyped capabilities in revocation: deleting what lies in their memory leads to recursive deletion of CNodes and TCBs through zombies, which is not modelled.
- cdtFindTypedInRange and the retyping of untyped memory: the bounds check covers only the first object of a window.
- CdtSearch.CdtFindWithExtra: which of the matches that are mapped lower it misses depends on the shape of the tree and is stated by the search paths; CdtMapping.HasExtraMisses shows that some are missed for every mapped cap.
- CdtLifetime.CdtIsFinal: assumes, as the design does, that typed caps with the same address are to the same object; that creation of objects keeps this is not modelled.
- CdtDeletion.CteRevoke: for caps other than untyped ones; the preemption point is a budget of deletions.
- CdtMapping.UnmapAll: the entries are given as the caps that name them; the hardware tables and the flushes are not modelled. That no entry is recorded in two caps, that what lies at an entry's address is of the entry's kind, and that mapped pages are mapped through page tables, is assumed.
- CdtMapping.MapPageTable: the checks on the page directory and the address, and the entry that is written.
- CdtDeletion.CteDeleteLeaf: a CNode or TCB that turns into a zombie, or a zombie that is not removable yet, is not emptied.
- Which IRQ state an interrupt has (setIRQState): only the capability in its node.
- CdtSlots.AaSplit: the number of slots is bounded by the 32-bit address space, which is what the level field is sized for.
- SameRegionAs and SameObjectAs do not wrap around at the end of the 32-bit address space.
- Multi-domain scheduling: in that build possibleSwitchTo neither queues nor switches to a target of the current domain.
- Virtual machines: the RunningVM thread state and the VCPU calls.
- Registers, IPC buffers and message contents other than the badge; the transfer of capabilities with a message.
- Lookups of capabilities and their failures are arguments: what a wait or an invocation finds is given with the event.
- Creation of TCBs and endpoints: all of them exist from the start, inactive or idle, and creating or recycling one is resetting it (Entry.DoWork); the memory it comes from is not modelled.
- Kernel.Kernel.Suspend: not for the thread that the entry is about to switch to; no entry gets there.
- Kernel.Kernel.Restart: only while the entry has not decided on a switch, which is the only time an invocation calls it.
- Kernel.Kernel.DeleteThread: the zombie that holds the thread's own capability slots.
- Entry.Perform: the deletion or swap of a slot with a reply cap is an entry that stops (Entry.Enter), as CdtDeletion.CteDelete and CdtDeletion.RotateInPlace say; the other caps of the slots are in the derivation tree, which is a model of its own.
- Entry.DoWork: an invocation that deletes several objects is a sequence of these; which ones it needs is not derived from the capabilities it deletes.
- Profiler.Profiler.RecordSample: counters do not wrap around at 32 bits.
- BootUntypeds.BootInfo.CreateUntypedsForRegion: a region that ends inside the skipped first page of the kernel window, or starts at address 0, is outside the model, since the number of leading or trailing zeros of 0 is undefined.
- StubMarshal.Marshal: the C expressions are modelled by their values, and struct members by the words of the value.
- Bitfield.Accessors: fields that are sign-extended, and the debugging assertion of the writers.
- Bitfield.CheckClasses: the collection of the tag fields of a union and the sorting of the classes by width.
- Digraph.FollowSets: if the second relation has cycles through several nodes, the condition is enough but not stated to be needed.
- Digraph.Propagation.Run: with cycles through several nodes, that nodes sharing a list have the same union is enough for exactness but not stated to be needed, since what spoils a list then depends on the order of the traversal. What the parser makes of the sets is not modelled.
- Concurrency with devices: interrupts are events between user instructions or at the preemption points.
