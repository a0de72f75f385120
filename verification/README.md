# Verified model of the Meiko CS/2 support for Linux

This project models the parts of the Meiko CS/2 port whose correctness rests on an argument over whole runs, and proves
that argument: the cross call between processors, the page mappings of a machine whose IOMMU is not cache coherent, the
remote console over the CAN bus from the target's handlers to the competing clients, and the time of day between ticks.
`dafny verify dfyconfig.toml` checks all of it.

| File | What it models |
|---|---|
| `CrossCall.dfy` | `smp4m_cross_call` and its level-15 handler as a machine of single memory accesses, any number of processors |
| `CpuBoot.dfy` | starting and counting the processors, and the ring along which interrupts rotate |
| `CpuCoverage.dfy` | which processors cross calls reach, given what booting left |
| `Iommu.dfy` | the three copies of the page table, the hardware that moves entries between them, and the coherence argument |
| `IommuDriver.dfy` | the driver's methods on such a table: single pages, scatter lists, DMA areas, releases |
| `Ring.dfy` | the ring buffer |
| `RingInterleaving.dfy` | producers and a consumer interleaved on it at single accesses, without a lock |
| `CanPacket.dfy` | packet headers bit by bit, the copy to and from the chip, the acceptance filter |
| `ConsoleOutput.dfy`, `ConsoleDevice.dfy` | console output with one packet in flight: as values, and on the driver's rings and flags |
| `ConsoleOwner.dfy`, `ConsoleNode.dfy` | the console's owner, its text in the PROM and the packet handlers: as values, and on the driver's state |
| `ConsoleClients.dfy` | any number of clients, a delaying network and one target |
| `ConsoleHeist.dfy` | one client taking the console over from another |
| `ConsoleTyping.dfy` | what is typed on its way to the target, and when it arrives exactly once |
| `AckMailbox.dfy` | how a client matches answers to its packets |
| `CanFiles.dfy`, `CanDevice.dfy` | open files, console ids and the delivery of packets: as values, and in the driver's arrays and rings |
| `TimeOfDay.dfy` | the time of day between ticks |
| `EscapeFilter.dfy` | the escape sequences a client takes out of what is typed, and the queue to its writer |
| `FiniteSets.dfy`, `Options.dfy`, `Words.dfy` | sizes of sets of numbers, results that may be missing, machine words |

Where a component changes its state in place there is a class. Most of its methods are proved to do what a function on
values does, and the theorems over whole runs are about those functions. Two classes are tied to their run machines
differently: `TimeOfDay.Clock` carries the run its variables have gone through, and every state between operations of
`IommuDriver.Iommu` satisfies the invariant that the coherence argument keeps (`IommuDriver.Iommu.Coherent`).

## What came out

* The cross-call barrier covers the processors below `smp_num_cpus`, so it reaches all present processors exactly when
  each of them other than the caller has an index below that count (`CrossCall.Barrier`). Booting leaves it so exactly
  when no secondary was seen to start, or none called in late and none is stuck before one that has started
  (`CpuCoverage.CoverageFromBoot`); for any other gap there is a run in which a present processor is left out
  (`CpuCoverage.GapMisses`, `CpuCoverage.StuckProcessorLeavesGap`).
* `smp_num_cpus` and `cpu_present_map` come from two separate looks at `cpu_callin_map`. They agree exactly when the
  first look saw no secondary at all or no processor calls in between the two (`CpuBoot.CountMatchesMap`,
  `CpuBoot.LateProcessorNotCounted`).
* `iommu40_get_area` compares the length with a page but not the offset plus the length, so a buffer that crosses a page
  is reached exactly when the next page is already mapped to the next physical page (`IommuDriver.BytesReached`,
  `IommuDriver.CrossingBuffer`).
* Releases may skip the flush because making a mapping flushes first and invalidates second; the opposite order and the
  flush alone both fail, on inputs that are given (`IommuHardware.InvalidateThenFlushFails`,
  `IommuHardware.FlushAloneFails`). Until the next map operation a released page is still translated
  (`IommuHardware.ReleasedStillTranslates`).
* The comments in `kernel/drivers/meiko/can_main.c` speak of spinlocks around the rings, which are compiled out. One
  producer and one consumer are safe without them (`RingInterleaving.FifoWithOneProducer`). A producer can also be
  interrupted by others and by the consumer, as `send_pkt` is by the receive interrupt, which puts any number of
  packets, and by the bottom half, which takes them. It then still does what it should exactly when, as it goes on, the
  head it read gives the same answer to the full-check as the present one; or, past that, there is room and the head has
  not moved since it picked its slot, but for the accident that the slot it then queues holds its very packet
  (`RingInterleaving.RightExactly`, `RingInterleaving.InterruptionExact`). Otherwise packets are mixed, lost, replaced
  by what a slot held before, or refused by an empty ring (`RingInterleaving.WhatComesOut`,
  `RingInterleaving.TwoCallsEmptyRing`, `RingInterleaving.StaleSlotDelivered`, `RingInterleaving.RefusedThoughEmpty`).
* Console output stalls exactly when every packet that a handler tries is dropped with more behind it, or a write faults
  after taking characters, while nothing is pending (`ConsoleOutput.StallsExactlyWhen`).
* The characters of a DAT packet are taken by its length field alone, up to seven bytes past the packet; they are its
  own exactly when the length is at most eight (`ConsoleNode.CharactersOwn`).
* A disconnection is not checked for who sends it. A second one in a session does no harm exactly when nobody holds the
  console when it is served, and otherwise exclusion can fail from there on
  (`ConsoleClients.DuplicateHarmlessExactlyWhen`, `ConsoleClients.SecondDisconnectionBreaksExclusion`).
* A packet of typed characters is sent again until its acknowledgement comes, and the target queues it as often as it is
  served, as far as there is room. While the terminal keeps up they arrive exactly once if and only if some try is
  served, and the answer to the first that is comes back or no other try is served
  (`ConsoleTyping.OnceWhenKeepingUp`, `ConsoleTyping.TypedExactlyOnce`, `ConsoleTyping.LostAnswerRepeats`).
* The manual page `cmd/cancon.8` says a client disconnects the target itself when the other client does not in
  reasonable time. The code does so after the fifth reading whatever that reading found, and the target refuses when
  there is no owner. So with every packet answered and nobody else connecting, a takeover whose force packet is
  acknowledged fails exactly when the console becomes free after the fourth reading and before that disconnection
  (`ConsoleHeist.HeistWithoutClaims`, `ConsoleHeist.LateSuccessRefused`); and if a newcomer connects in between, it is
  the newcomer that is disconnected (`ConsoleHeist.NewcomerUnseated`). The model follows the code.
* Time never goes backwards exactly when, at each interrupt, no more whole microseconds have passed since the one before
  than the kernel's time has gained: with one tick gained that is less than 10,001,000 ns, and when the bottom half has
  not run yet less than 1000 ns (`TimeOfDay.NeverBackwardsExactly`, `TimeOfDay.BoundExact`). The difference of two clock
  counts is right exactly when the seconds do not pass 2^31 in between, where the conversion changes sign
  (`TimeOfDay.DifferenceExact`).

## Model

| member | source | states |
|---|---|---|
| CrossCall.StepKeepsInv | kernel/arch/sparc/meiko/smp.c:351-419 | every access by a caller or a level-15 handler, in any order and with any number of processors, keeps the phase invariant of the cross call |
| CrossCall.ReachableInv | kernel/arch/sparc/meiko/smp.c:351-419 | the invariant holds after every legal interleaving from the initial state |
| CrossCall.HandlerKeepsCell | kernel/arch/sparc/meiko/smp.c:411-419 | a handler step keeps its processor in step with the call being served and never lowers its in or out flag |
| CrossCall.Barrier | kernel/arch/sparc/meiko/smp.c:351-408 | when a call is about to return, it is the one the caller was last invoked with, function and five arguments in their places; no handler is running or pending, each processor the loop covers has run the function once more with just these words and no other has run anything; so all present processors have run it if and only if each present one other than the caller is below `smp_num_cpus` |
| CrossCall.Isolation | kernel/arch/sparc/meiko/smp.c:354-419 | a handler only holds words of the call that owns the lock, fully published, and runs with exactly those |
| CrossCall.NeverPendingTwice | kernel/arch/sparc/meiko/smp.c:370-380 | level 15 is never raised on a processor where it is pending or being handled |
| CrossCall.SameOrderEverywhere | kernel/arch/sparc/meiko/smp.c:351-419 | with the lock free every covered processor has run every call ever made, once each, in lock order; and the calls of each caller in that order are those it was invoked with, in order, but for one still waiting for the lock |
| CrossCall.CallsAreInvoked | kernel/arch/sparc/meiko/smp.c:351-387 | in every run what a caller has had done and what it still wants are together the calls it was invoked with, in order |
| CrossCall.HandlerLowersWork | kernel/arch/sparc/meiko/smp.c:411-419 | delivery and each handler step lower the work left |
| CrossCall.FireLowersWork | kernel/arch/sparc/meiko/smp.c:366-383 | each write of the firing loop pays for the handler it may cause |
| CrossCall.StepLowersWork | kernel/arch/sparc/meiko/smp.c:351-419 | every step other than a new call lowers a natural number |
| CrossCall.SomeStepEnabled | kernel/arch/sparc/meiko/smp.c:351-419 | no deadlock, with any number of callers contending for the lock |
| CrossCall.CallsReturn | kernel/arch/sparc/meiko/smp.c:351-408 | without new calls only a bounded number of steps can follow, and when none is left every caller has returned |
| CpuCoverage.CoverageFromBoot | kernel/arch/sparc/meiko/smp.c:176-264 | calls reach all present processors, whoever makes them, if and only if no secondary was seen to start, or none called in late and none is stuck before one that has started |
| CpuCoverage.GapMisses | kernel/arch/sparc/meiko/smp.c:351-408 | for every present processor outside the loop's range there is a run in which the call returns and that processor has not executed it |
| CpuCoverage.StuckProcessorLeavesGap | kernel/arch/sparc/meiko/smp.c:176-250 | three processors with the second stuck: a call of the first returns without the third having executed it |
| CpuBoot.FollowsRank | kernel/arch/sparc/meiko/smp.c:252-264 | a link leads one place up in processor order, and from the last place to the first |
| CpuBoot.WalkRank | kernel/arch/sparc/meiko/smp.c:252-264 | k links lead k places further around the ring |
| CpuBoot.RingVisitsAll | kernel/arch/sparc/meiko/smp.c:252-293 | from any present processor each present one is reached after exactly one number of rotations below their count, and after that count one is back |
| CpuBoot.CountMatchesMap | kernel/arch/sparc/meiko/smp.c:220-250 | after boot `smp_num_cpus` is the size of the present map if and only if no secondary was seen at the first look or none calls in between the two |
| CpuBoot.BootedExactly | kernel/arch/sparc/meiko/smp.c:176-250 | present are the processor that boots and, if the first look saw any other, those the second look saw; counted are those the first look saw, and the one that boots |
| CpuBoot.LateProcessorNotCounted | kernel/arch/sparc/meiko/smp.c:220-250 | an input with a secondary seen and another calling in late: three present, two counted |
| CpuBoot.Smp.BootCpus | kernel/arch/sparc/meiko/smp.c:146-283 | which processors end up present, counted and linked, for every pattern of stuck ones, including a single-processor machine and no secondary started |
| CpuBoot.Smp.StartSecondaries | kernel/arch/sparc/meiko/smp.c:176-233 | the count is that of the secondaries seen at the first look, the map that of the second |
| CpuBoot.Smp.LinkRing | kernel/arch/sparc/meiko/smp.c:252-264 | the loop links the present processors in increasing order into a ring |
| CpuBoot.Smp.IrqRotate | kernel/arch/sparc/meiko/smp.c:289-293 | interrupt reception goes to the next present processor, and nowhere before boot is over |
| IommuHardware.MakePteEncodes | kernel/arch/sparc/meiko/iommu.c:31-34 | an entry made for a physical address is valid and writable, its low byte has no other bit, and it holds the page of the address |
| IommuHardware.ClearsOneBit | kernel/arch/sparc/meiko/iommu.c:163-174 | clearing the valid bit leaves every other bit of the entry |
| IommuHardware.HappenDisturbs | kernel/arch/sparc/meiko/iommu.c:136-181 | a write-back, refill or eviction stays within what the environment is allowed between two driver accesses |
| IommuHardware.SettledStays | kernel/arch/sparc/meiko/iommu.c:163-181 | an entry that agrees in cache, memory and TLB goes on agreeing whatever the hardware does |
| IommuHardware.FlushThenInvalidateSettles | kernel/arch/sparc/meiko/iommu.c:136-161 | flush followed by invalidation makes all copies agree, with hardware events before, between and after |
| IommuHardware.InvalidateThenFlushFails | kernel/arch/sparc/meiko/iommu.c:136-146 | in the opposite order a refill in between leaves a stale entry |
| IommuHardware.FlushAloneFails | kernel/arch/sparc/meiko/iommu.c:136-146 | the flush alone leaves a stale entry |
| IommuHardware.PerformKeepsInv | kernel/arch/sparc/meiko/iommu.c:136-227 | stores, flushes, invalidations, releases and hardware events keep the coherence invariant |
| IommuHardware.Coherence | kernel/arch/sparc/meiko/iommu.c:93-227 | after any run from a table cleared through the cache, whatever memory and TLB held, every mapping in force is the entry last stored for its page, and is what the IOMMU translates with, also in the middle of other operations, although releases flush nothing; and between operations a page not in force is translated only if it was released since the last map operation or there has been none |
| IommuHardware.MappingsAreLatest | kernel/arch/sparc/meiko/iommu.c:93-227 | a page is mapped if and only if the last access that concerned it was a store and no release, and to what was stored |
| IommuHardware.ReleasedStillTranslates | kernel/arch/sparc/meiko/iommu.c:163-174 | a released page is still translated as it was |
| IommuDriver.FirstFree | kernel/arch/sparc/meiko/iommu.c:116-127 | the page chosen is free and every page below it is mapped |
| IommuDriver.PlacedExactly | kernel/arch/sparc/meiko/iommu.c:148-161 | a list is placed if and only if none of its elements is longer than a page and the region has as many free pages as it has elements; each takes one |
| IommuDriver.PlacedPages | kernel/arch/sparc/meiko/iommu.c:149-161 | a placed list lies on pages that were free, each mapped to its element's buffer, and no other mapping changes |
| IommuDriver.PlacedApart | kernel/arch/sparc/meiko/iommu.c:149-161 | pages of a list are pairwise distinct, lower for later elements, and none below one of them stays free |
| IommuDriver.ValidMeansHeld | kernel/arch/sparc/meiko/iommu.c:112-127 | the valid bit of an entry says whether its page is mapped |
| IommuDriver.Iommu.constructor | kernel/arch/sparc/meiko/iommu.c:51-106 | no mapping at the start, the SCSI region below the DVMA region, memory and TLB holding anything |
| IommuDriver.Iommu.Environment | kernel/arch/sparc/meiko/iommu.c:136-181 | between driver accesses any number of write-backs, refills and evictions |
| IommuDriver.Iommu.Commit | kernel/arch/sparc/meiko/iommu.c:141-144 | after the flush and the invalidation every entry agrees in all copies |
| IommuDriver.Iommu.GetArea | kernel/arch/sparc/meiko/iommu.c:108-134 | the lowest free page gets the entry, or panic when the length exceeds a page or none is free |
| IommuDriver.Iommu.GetScsiOne | kernel/arch/sparc/meiko/iommu.c:108-146 | exactly the lowest free page is added to the mappings, or panic; a device reaches all bytes of the buffer if and only if it ends within its page or the next page was already mapped to go on |
| IommuDriver.Iommu.PlaceElement | kernel/arch/sparc/meiko/iommu.c:155-158 | one list element gets the lowest free page and its bus address |
| IommuDriver.Iommu.PlaceList | kernel/arch/sparc/meiko/iommu.c:148-161 | the elements of a list are placed from the last down; all of them if and only if none is longer than a page and there are as many free pages, and else panic |
| IommuDriver.Iommu.GetScsiSgl | kernel/arch/sparc/meiko/iommu.c:148-161 | elements 0..sz inclusive get their addresses, nothing else of them changes, and the others stay; each address leads to a page mapped to the buffer, at its offset, and a device reaches every byte of a buffer if and only if it ends within its page or the next page goes on; the mappings grow by exactly those pages; panic if and only if an element is longer than a page or there are too few free pages |
| IommuDriver.Iommu.ReleaseScsiOne | kernel/arch/sparc/meiko/iommu.c:163-174 | the mapping is removed and every other one goes on translating without a flush; panic if and only if there is none |
| IommuDriver.Iommu.ReleaseScsiSgl | kernel/arch/sparc/meiko/iommu.c:176-181 | elements 0..sz inclusive are removed, from the last down |
| IommuDriver.Iommu.MapDmaArea | kernel/arch/sparc/meiko/iommu.c:188-227 | the pages of the area, which is in the upper region, are mapped to the physical pages handed out, and the lower region is left alone |
| IommuDriver.Iommu.Translates | kernel/arch/sparc/meiko/iommu.c:136-181 | in every state between operations a mapped page is translated to its physical page |
| IommuDriver.Iommu.Coherent | kernel/arch/sparc/meiko/iommu.c:136-227 | every state between operations satisfies the coherence invariant |
| IommuDriver.Iommu.StaysReached | kernel/arch/sparc/meiko/iommu.c:108-181 | in every state between operations a device reaches each byte of a mapped buffer that ends within its page |
| IommuDriver.AreaCovered | kernel/arch/sparc/meiko/iommu.c:188-227 | the loop maps exactly the pages that hold a byte of the area |
| IommuDriver.MapRangeMaps | kernel/arch/sparc/meiko/iommu.c:188-227 | mapping an area changes those pages and no others |
| IommuDriver.ReleasedAll | kernel/arch/sparc/meiko/iommu.c:176-181 | releasing a list succeeds if and only if its pages are mapped and distinct, and removes exactly those |
| IommuDriver.OthersIgnoreMine | kernel/arch/sparc/meiko/iommu.c:108-181 | other maps and releases that keep off a list's pages do the same with and without them |
| IommuDriver.EffectsOfOne | kernel/arch/sparc/meiko/iommu.c:108-181 | what one call of another user does: it maps the lowest free page, or releases a mapped page that is not of the list, or nothing |
| IommuDriver.AddressesLeadBack | kernel/arch/sparc/meiko/iommu.c:148-181 | the bus addresses written into a list lead back to the pages its elements were given |
| IommuDriver.MapThenRelease | kernel/arch/sparc/meiko/iommu.c:148-181 | mapping a list and releasing it by the addresses written into it leaves what the operations in between alone would have left |
| IommuDriver.Iommu.MapListAndRelease | kernel/arch/sparc/meiko/iommu.c:136-181 | the same with the driver's own operations: a list mapped, single mappings of others made and released, the list released |
| IommuDriver.BytesReached | kernel/arch/sparc/meiko/iommu.c:108-134 | right after a map operation a device reaches each byte of a mapped buffer if and only if it ends within its page or the next page is mapped to the next physical page |
| IommuDriver.CrossingBuffer | kernel/arch/sparc/meiko/iommu.c:108-146 | two bytes at the end of a page are accepted and the second is not reached |
| RingBuffer.SizeAndRoom | kernel/include/asm-sparc/meiko/can.h:212-239 | size and room add up to one less than the buffer in every state; size is what is queued, room 0 is full |
| RingBuffer.QueuedAt | kernel/include/asm-sparc/meiko/can.h:184-190 | where the k-th oldest value is |
| RingBuffer.Ring.constructor | kernel/include/asm-sparc/meiko/can.h:220-221 | a new ring is empty |
| RingBuffer.Ring.In | kernel/drivers/meiko/can_main.c:84-103 | a value goes to the end of the contents, or is refused exactly when the ring is full |
| RingBuffer.Ring.Out | kernel/drivers/meiko/can_main.c:106-125 | the oldest value is taken, or nothing exactly when the ring is empty |
| RingBuffer.Ring.Clear | kernel/include/asm-sparc/meiko/can.h:222-223 | the ring is emptied |
| RingBuffer.Ring.Size | kernel/include/asm-sparc/meiko/can.h:237-239 | the number of values held |
| RingBuffer.Ring.Room | kernel/include/asm-sparc/meiko/can.h:216-218 | the number of values that still fit |
| RingInterleaving.ProduceKeepsInv | kernel/drivers/meiko/can_main.c:84-103 | each single access of a producer that leaves no two inside keeps the ring's invariant |
| RingInterleaving.TakeKeepsInv | kernel/drivers/meiko/can_main.c:106-125 | each single access of the consumer keeps the ring's invariant |
| RingInterleaving.FifoWithOneProducer | kernel/drivers/meiko/can_main.c:84-125 | in every interleaving of one producer and one consumer the packets taken followed by those in the ring are exactly those accepted, whole and in order; refusals only when full, misses only when empty |
| RingInterleaving.FifoWhenAlone | kernel/drivers/meiko/can_main.c:84-125 | the same for any number of producers, as long as no two are ever between full-check and update of the head |
| RingInterleaving.CarriesItsOwn | kernel/drivers/meiko/can_main.c:84-103 | in every interleaving a producer that is in a call carries the packet it was last called with |
| RingInterleaving.CallsAccountedFor | kernel/drivers/meiko/can_main.c:84-103 | in every interleaving of any number of producers each call is accepted once, refused or under way, and no packet is accepted that was not offered |
| RingInterleaving.RightExactly | kernel/drivers/meiko/can_main.c:84-103 | in any state of the ring: a producer past its full-check goes on to do what a whole call would if and only if the head it read is as good as the present one, or there is room and the head has not moved since it picked its slot, with its words still there, or the next slot holds its packet already |
| RingInterleaving.InterruptionExact | kernel/drivers/meiko/can_main.c:84-175 | so after any number of whole puts and takes in between, which do what they should; and then everything accepted is taken or queued |
| RingInterleaving.TwoCallsEmptyRing | kernel/drivers/meiko/can_main.c:540-557 | an interrupt that puts two packets where two slots are free: three are accepted and the ring looks empty |
| RingInterleaving.RefusedThoughEmpty | kernel/drivers/meiko/can_main.c:540-614 | a packet put and taken in between: the producer is refused by an empty ring |
| RingInterleaving.WhatComesOut | kernel/drivers/meiko/can_main.c:84-175 | what the consumer gets when one whole call comes in between and the consumer is still: the order changed, a packet of both and a stale slot, a packet lost, or everything lost |
| RingInterleaving.OneCallHarmless | kernel/drivers/meiko/can_main.c:84-175 | one call in between, with the consumer still, does no harm, whatever the packets, if and only if the producer has not picked its slot and there is room for two |
| RingInterleaving.StaleSlotDelivered | kernel/drivers/meiko/can_main.c:84-175 | a run from an empty ring: two packets are accepted and the second one queued is neither |
| CanPacket.ExtRoundTrip | kernel/include/asm-sparc/meiko/can.h:121-132 | every extended header survives packing into a word |
| CanPacket.WordRoundTrip | kernel/include/asm-sparc/meiko/can.h:121-132 | every word survives unpacking into an extended header |
| CanPacket.CanRoundTrip | kernel/include/asm-sparc/meiko/can.h:110-119 | every standard header survives packing |
| CanPacket.ExtLayout | kernel/include/asm-sparc/meiko/can.h:121-132 | where each field of the extended header lies in its word |
| CanPacket.CanLayout | kernel/include/asm-sparc/meiko/can.h:110-119 | where each field of the standard header lies |
| CanPacket.AddressBits | kernel/include/asm-sparc/meiko/can.h:121-132 | two extended headers agree in object and address if and only if their words agree but for the four bits of priority and type |
| CanPacket.AddressOfId | kernel/include/asm-sparc/meiko/can.h:45-52 | cluster, module and node are the three five-bit numbers a node id is made of |
| CanPacket.CopyRoundTrip | kernel/drivers/meiko/can_main.c:217-249 | what one node copies to its chip another receives in every field |
| CanPacket.TxBytes | kernel/drivers/meiko/can_main.c:236-249 | which byte of the packet goes to which register |
| CanPacket.BigEndian | kernel/drivers/meiko/can_main.c:217-249 | the bytes of a word, the highest first |
| CanPacket.BitsCompared | kernel/drivers/meiko/can_main.c:655-689 | comparing n bits of two numbers through the mask compares the numbers |
| CanPacket.FilterAgrees | kernel/drivers/meiko/can_main.c:655-689 | the acceptance filter passes exactly the packets `IS_MYPACKET` takes, and all in promiscuous mode |
| ConsoleOutput.StepConserves | kernel/drivers/meiko/can_console.c:158-249 | every handler keeps the account of characters |
| ConsoleOutput.StepWaits | kernel/drivers/meiko/can_console.c:158-234 | every handler keeps timer and pending flag equal and at most one packet unacknowledged |
| ConsoleOutput.OutputConserved | kernel/drivers/meiko/can_console.c:158-431 | over every run from the start the characters accepted are what fitted of each handler's text, and are in order those sent, lost, cleared and still queued; each DAT packet carries one to four, none twice |
| ConsoleOutput.StepAccepts | kernel/drivers/meiko/can_console.c:208-421 | every handler accepts exactly the front of what it is given that fits: the characters written up to a fault, one character, or a text with its newlines expanded; nothing for no owner or a stopped terminal |
| ConsoleOutput.ExpandMeans | kernel/drivers/meiko/can_console.c:236-249 | a text is expanded piece by piece, a newline to CR NL and every other character to itself |
| ConsoleOutput.DatReaches | kernel/drivers/meiko/can_console.c:154-192 | a DAT packet names the owner's object and carries the characters given; it goes to the owner's node on the same module and else to the H8 |
| ConsoleOutput.SendTakes | kernel/drivers/meiko/can_console.c:158-206 | nothing goes while an acknowledgement is pending; otherwise up to four of the oldest characters leave the queue, in one packet to the owner if there is room for it |
| ConsoleOutput.StallsExactlyWhen | kernel/drivers/meiko/can_console.c:158-234 | a handler leaves queued output that nothing will send if and only if every packet it tries is dropped with more behind it, or a write faults after taking characters, while nothing is pending |
| ConsoleOutput.NeverStalls | kernel/drivers/meiko/can_console.c:158-249 | from the start, without dropped packets and faults, queued output always has an acknowledgement pending |
| ConsoleOutput.OldestGoOut | kernel/drivers/meiko/can_console.c:158-249 | each time the flag is cleared four more of the oldest characters go out, or all that are left |
| ConsoleOutput.Drains | kernel/drivers/meiko/can_console.c:158-249 | in every run without dropped packets, faults, flushes and disconnections, once the pending flag has been cleared ceil(n/4) times the n characters queued at the start have all gone to the owner, in order and first, whatever was queued meanwhile |
| ConsoleOutput.DrainsExactly | kernel/drivers/meiko/can_console.c:158-234 | with nothing else going on they go out in exactly ceil(n/4) packets and leave the queue empty |
| ConsoleDevice.Console.constructor | kernel/drivers/meiko/can_console.c:504-522 | no output and nothing pending at the start |
| ConsoleDevice.Console.TakeFour | kernel/drivers/meiko/can_console.c:177-185 | up to four characters leave the front of the ring |
| ConsoleDevice.Console.SendNext | kernel/drivers/meiko/can_console.c:158-206 | with an owner nothing happens while an acknowledgement is pending, and otherwise up to four of the oldest characters leave the queue, for the owner or lost; without one the queue is emptied |
| ConsoleDevice.Console.RecvAck | kernel/drivers/meiko/can_console.c:208-234 | timer and pending flag are cleared, what is printed goes through the queue, and the next packet goes; on an acknowledgement that was awaited nothing is added and up to four of the oldest characters are tried |
| ConsoleDevice.Console.PushText | kernel/drivers/meiko/can_console.c:236-249 | the characters accepted and queued are the front of the text, each newline as carriage return and newline, that fits |
| ConsoleDevice.Console.PrintkWrite | kernel/drivers/meiko/can_console.c:236-249 | the same, and then the next packet is tried; with no owner or no text nothing changes |
| ConsoleDevice.Console.CharToRing | kernel/drivers/meiko/can_console.c:72-91 | the character is queued and accepted, or refused if and only if the ring is full |
| ConsoleDevice.Console.CopyIn | kernel/drivers/meiko/can_console.c:376-401 | the characters queued and accepted are the front of the buffer before a fault that fits; whether the fault was met |
| ConsoleDevice.Console.TtyWrite | kernel/drivers/meiko/can_console.c:376-401 | with an owner and a running terminal the characters accepted are the front of the buffer, before a fault, that fits, the count returned is theirs or EFAULT, and unless it is 0 or EFAULT the oldest four of the queue are tried; without an owner or on a stopped terminal nothing changes |
| ConsoleDevice.Console.PutChar | kernel/drivers/meiko/can_console.c:417-421 | the character is accepted if and only if there is room, and the oldest four of the queue are tried |
| ConsoleDevice.Console.ClearOutput | kernel/drivers/meiko/can_console.c:427-431 | the output queue is emptied |
| ConsoleDevice.Console.Hangup | kernel/drivers/meiko/can_console.c:292-298 | both queues are emptied |
| ConsoleDevice.Console.SetCon | kernel/drivers/meiko/can_console.c:142-151 | the owner becomes the one written, or the word for no owner with priority and type kept |
| ConsoleDevice.Console.Receive | kernel/drivers/meiko/can_console.c:323-328 | typed characters that fit are queued |
| ConsoleDevice.Console.PushUp | kernel/drivers/meiko/can_console.c:306-320 | queued characters go up in order as far as the terminal takes them |
| ConsoleDevice.Console.RecvDat | kernel/drivers/meiko/can_console.c:323-328 | nothing is lost or reordered between queue and terminal but what did not fit |
| ConsoleDevice.PushMore | kernel/drivers/meiko/can_console.c:237-249 | queueing in pieces is queueing at once |
| ConsoleOwner.ParsePrinted | kernel/drivers/meiko/can_obj.c:64-79 | reading back the digits of a word gives the word |
| ConsoleOwner.PrintLength | kernel/drivers/meiko/can_obj.c:67-77 | a number below ten to the k prints in at most k digits |
| ConsoleOwner.TextRoundTrip | kernel/drivers/meiko/can_obj.c:64-79 | every 32-bit word survives the PROM text, whose 11 characters at most fit the 16 there are |
| ConsoleOwner.PrintsDecimal | kernel/drivers/meiko/can_obj.c:74-77 | the text is the decimal digits of the word, without a leading zero |
| ConsoleOwner.ReadsDecimal | kernel/drivers/meiko/can_obj.c:70-73 | reading takes the leading digits as a decimal number cut to 32 bits |
| ConsoleOwner.AdvanceKeepsProm | kernel/drivers/meiko/can_obj.c:64-135 | every handler keeps the PROM text equal to the owner, and an owner is only replaced by none |
| ConsoleOwner.BootAgrees | kernel/drivers/meiko/can_obj.c:462-466 | after boot the two agree |
| ConsoleOwner.OwnerSurvivesReboot | kernel/drivers/meiko/can_obj.c:64-135 | at every moment of every run a reboot restores exactly the owner |
| ConsoleOwner.ChangesThroughUnconnected | kernel/drivers/meiko/can_obj.c:84-135 | between two different owners the console is unconnected at some moment |
| ConsoleOwner.AnswersTell | kernel/drivers/meiko/can_obj.c:40-135 | what ACK and NAK say about the owner, for reads, writes and disconnections |
| ConsoleOwner.AnswersExactly | kernel/drivers/meiko/can_obj.c:40-182 | an answer goes to the sender from this node with the same header but for the kind; an ACK from CONSOLE_CONNECT carries the owner as it then is and is eight long, every other answer is four; what is not answered changes nothing; when a packet counts as handled |
| ConsoleOwner.DisconnectionClears | kernel/drivers/meiko/can_console.c:142-151 | a disconnection leaves all ones in the address, and priority and type as they were |
| ConsoleOwner.TypingAnswered | kernel/drivers/meiko/can_obj.c:140-160 | typed characters are acknowledged if and only if there is an owner |
| ConsoleNode.Node.constructor | kernel/drivers/meiko/can_obj.c:462-466 | the owner at boot is the one in the PROM |
| ConsoleNode.Node.SaveOwner | kernel/drivers/meiko/can_obj.c:74-78 | the text in the PROM reads back as the owner and fits its 16 bytes |
| ConsoleNode.Node.ConnectObject | kernel/drivers/meiko/can_obj.c:84-109 | owner, PROM, answers and output state after a packet for CONSOLE_CONNECT |
| ConsoleNode.Node.DisconnectObject | kernel/drivers/meiko/can_obj.c:114-135 | the same for CONSOLE_DISCONN, with both queues emptied |
| ConsoleNode.Node.DatObject | kernel/drivers/meiko/can_obj.c:140-160 | as many typed characters as the length says, read past the packet if need be, are acknowledged and queued, only when connected |
| ConsoleNode.CharactersOwn | kernel/drivers/meiko/can_obj.c:140-160 | what a DAT packet is taken to hold is in the packet if and only if its length is at most eight |
| ConsoleNode.CharactersAre | kernel/drivers/meiko/can_obj.c:140-160 | they are the bytes of the data word, the highest first, and then what follows the packet |
| ConsoleNode.Node.ConsoleObject | kernel/drivers/meiko/can_obj.c:165-182 | an ACK for the owner's object releases the next output packet, a NAK prints a message |
| ConsoleNode.Node.DispatchObject | kernel/drivers/meiko/can_obj.c:419-453 | the object of the packet decides, for owner, output, input and the answers of the console's objects |
| ConsoleNode.Node.PacketArrives | kernel/drivers/meiko/can_obj.c:414-460 | owner, PROM, output state, input queue and the answers of the console's objects after any packet, with the owner's object compared after the dispatch |
| ConsoleNode.AnswersAndOutput | kernel/drivers/meiko/can_obj.c:165-182 | an acknowledgement lets the next output packet go if and only if it is for the owner's object; other answers leave the output alone |
| ConsoleNode.OwnerAndOutput | kernel/drivers/meiko/can_obj.c:84-135 | the output's owner is the one the owner's handlers leave; other packets leave the output alone, but a disconnection empties the queue |
| ConsoleClients.IdConnected | kernel/include/asm-sparc/meiko/can.h:45-52 | an address unpacked from five bits never looks unconnected |
| ConsoleClients.HarmlessKeepsOwner | kernel/drivers/meiko/can_obj.c:64-135 | packets to other objects, reads and reboots leave the owner alone |
| ConsoleClients.ServedClient | kernel/drivers/meiko/can_obj.c:84-135 | serving a client changes the owner only between that client and none, in step with its claim |
| ConsoleClients.StepKeepsInv | cmd/cancon.c:573-625 | every step of clients, network and target keeps: a client holds the console if and only if the owner is its object |
| ConsoleClients.MutualExclusion | cmd/cancon.c:573-625 | whatever the PROM held at boot, for any number of clients and any interleaving at most one is connected, and the target's owner is its console object |
| ConsoleClients.ClaimsWereTold | cmd/cancon.c:578-610 | in every run a client that is claiming the console was told by an acknowledged read that nobody has it, and has been claiming ever since |
| ConsoleClients.SessionsWereGranted | cmd/cancon.c:601-609 | a client that is connected was told that its claim was granted, and has been connected ever since |
| ConsoleClients.ToldGoesOn | cmd/cancon.c:584-609 | a client told so claims the console, or is connected |
| ConsoleClients.RefusedTwentyTimes | cmd/cancon.c:359-390 | a request that is refused every time is sent twenty times |
| ConsoleClients.RequestReaches | cmd/can.c:82-113 | a request goes to the target's node on the same module and else to the H8, from the client's node, for the object and of the type that is meant |
| ConsoleClients.ClaimNamesClient | cmd/cancon.c:139-147 | what a client claims the console with names its own node and console object |
| ConsoleClients.DuplicateHarmlessExactlyWhen | cmd/cancon.c:612-641 | with two clients or more, after a second disconnection of a session the console is held exclusively however things go on if and only if nobody holds it when that is served |
| ConsoleClients.DuplicateHarms | cmd/cancon.c:612-641 | a way to go on after which it is not, whatever the holder has under way |
| ConsoleClients.SecondDisconnectionBreaksExclusion | cmd/cancon.c:612-641 | a run with one after which two clients are connected |
| ConsoleHeist.Thief.MySend | cmd/cancon.c:353-384 | tries, packets, answers and the target's states as the function on values gives them |
| ConsoleHeist.Thief.ReadOwner | cmd/cancon.c:498-514 | likewise for a reading of the owner |
| ConsoleHeist.Thief.SendDisconnect | cmd/cancon.c:519-530 | likewise for a disconnection |
| ConsoleHeist.Thief.Exchange | cmd/cancon.c:359-384 | one packet and its answer, which may be lost, with the target serving others before and after |
| ConsoleHeist.Thief.Poll | cmd/cancon.c:560-571 | the polling loop and the disconnection after the fifth reading do what the function on values does |
| ConsoleHeist.Thief.Heist | cmd/cancon.c:549-572 | at most 141 packets, and success means the console was unconnected at a moment of the call |
| ConsoleHeist.HeistTells | cmd/cancon.c:549-572 | at most 141 packets, and success means the console was unconnected at a moment of the call |
| ConsoleHeist.SendTells | cmd/cancon.c:353-384 | at most the given number of packets, and an ACK tells the target's states at a moment of the call |
| ConsoleHeist.SendStopsAt | cmd/cancon.c:359-384 | on any network `mysend` stops at the first try that is acknowledged, and else at the last one allowed, one at least |
| ConsoleHeist.ExchangeExactly | cmd/cancon.c:359-384 | on any network the target is changed by the packet if and only if it arrives, and the answer is what the target answered if and only if that comes back |
| ConsoleHeist.DisconnectExact | cmd/cancon.c:519-530 | with every packet answered a disconnection sent again while refused succeeds if and only if the console is connected at one of its tries |
| ConsoleHeist.PollExact | cmd/cancon.c:560-571 | with every packet answered polling succeeds if and only if one of the first four readings finds the console free or one of the disconnections after the fifth finds it taken |
| ConsoleHeist.PollStopsAt | cmd/cancon.c:560-571 | on any network the polling stops at the first reading that is not answered, which fails, or finds the console free, which succeeds, and else at the fifth; after an answered fifth all depends on the disconnection |
| ConsoleHeist.GivesUpAtOnce | cmd/cancon.c:557-559 | when neither the other client nor the target acknowledges, the takeover has failed and nothing is read |
| ConsoleHeist.HeistWithoutClaims | cmd/cancon.c:549-572 | with every packet answered and nobody else connecting, `heist_connection` succeeds if and only if the console is free by the fourth reading or still taken when the disconnection after the fifth is served; and if the other client does not answer, if and only if it is still taken when the first disconnection is served |
| ConsoleHeist.LateSuccessRefused | cmd/cancon.c:565-570 | a run in which the fifth reading finds the console free and failure is returned |
| ConsoleHeist.NewcomerUnseated | cmd/cancon.c:560-571 | a run in which a newcomer connects after that reading: success is returned and the newcomer is out |
| ConsoleHeist.AcknowledgementTells | kernel/drivers/meiko/can_obj.c:84-135 | what an ACK of a read or a disconnection tells |
| ConsoleHeist.HistoryGrows | kernel/drivers/meiko/can_obj.c:419-460 | the owners seen over a run are extended by the next one |
| ConsoleTyping.Write | cmd/cancon.c:324-412 | the writer sends its packets as the function on values says |
| ConsoleTyping.SendChunk | cmd/cancon.c:359-412 | so does the retry loop for one packet |
| ConsoleTyping.StopsAtAnswer | cmd/cancon.c:359-412 | a packet is sent until the first answer that comes back or as often as there are tries |
| ConsoleTyping.NodeServes | kernel/drivers/meiko/can_obj.c:140-160 | a node with an owner acknowledges the packet and queues as many of its characters as fit, and does neither without |
| ConsoleTyping.SendExactlyOnce | cmd/cancon.c:359-412 | the characters of a packet arrive exactly once if and only if of the tries made exactly one finds room, and for all of them |
| ConsoleTyping.TypedExactlyOnce | cmd/cancon.c:324-412 | what is typed arrives exactly once and in order if and only if each packet does, on any network |
| ConsoleTyping.OnceWhenKeepingUp | cmd/cancon.c:359-412 | while the terminal keeps up that is: some try is served, and the answer to the first that is comes back or no other try is served |
| ConsoleTyping.LostAnswerRepeats | cmd/cancon.c:359-412 | one lost answer makes the characters arrive twice |
| AckMailbox.Mailbox.Signal | cmd/cancon.c:187-198 | the entry is deposited, or dropped when the array is full |
| AckMailbox.Mailbox.Scan | cmd/cancon.c:233-240 | what is returned is the entry for the target after which there is none for it in the array, or what was there before if there is none at all; and the array is emptied |
| AckMailbox.Mailbox.WaitFor | cmd/cancon.c:207-246 | what is returned, whatever each wait brings, as `AckMailbox.AwaitLooksFirst` and `AckMailbox.AwaitExactly` tell |
| AckMailbox.LastOursFound | cmd/cancon.c:233-240 | an entry for the target is found if and only if there is one |
| AckMailbox.LastOursExactly | cmd/cancon.c:233-240 | an entry is returned if and only if it is for the target and none after it is |
| AckMailbox.AwaitLooksFirst | cmd/cancon.c:207-240 | if the array holds an entry for the target already, the last one is the answer |
| AckMailbox.AwaitExactly | cmd/cancon.c:207-246 | otherwise the first wait decides that times out or brings an entry for the target into the array: the last such entry is the answer, even after a timeout, and without one it is a timeout; the wait goes on if and only if there is no such wait |
| AckMailbox.IsOursMeans | cmd/cancon.c:200-206 | an entry is for the target if and only if the headers agree but for priority and type |
| AckMailbox.DepositFits | cmd/cancon.c:187-198 | nothing is dropped while there is room |
| AckMailbox.DepositExactly | cmd/cancon.c:187-198 | of entries deposited the first sixteen are kept |
| AckMailbox.AnswerPaired | cmd/cancon.c:207-246 | without timeouts and overflow the writer goes on if and only if an entry for its target has come, and with such an entry |
| CanFiles.Probe | kernel/drivers/meiko/can_main.c:268-284 | the index returned is free |
| CanFiles.ProbeFinds | kernel/drivers/meiko/can_main.c:268-284 | the circular probe finds a free id from any start if there is one |
| CanFiles.ProbeFirst | kernel/drivers/meiko/can_main.c:268-284 | every id passed over by the probe is reserved |
| CanFiles.FreeIdExists | kernel/drivers/meiko/can_main.c:268-284 | while an open file holds no id there is a free one |
| CanFiles.DropKeepsIds | kernel/drivers/meiko/can_main.c:286-292 | giving an id back keeps ids and holders in agreement |
| CanFiles.TakeKeepsIds | kernel/drivers/meiko/can_main.c:317-345 | CAN_GET_CONSOBJ always succeeds and keeps them in agreement |
| CanFiles.ApplyKeepsIds | kernel/drivers/meiko/can_main.c:317-455 | every open, close, ioctl, read and delivery keeps: an id is reserved if and only if exactly one open file holds it |
| CanFiles.IdsOverRuns | kernel/drivers/meiko/can_main.c:317-455 | so in every run ids and holders agree and no request for an id fails |
| CanFiles.ApplyExactly | kernel/drivers/meiko/can_main.c:317-601 | what each operation does to each open file: a packet drained goes to the end of its ring if and only if it is for this node or a flag of the file is set, and there is room; the flags become those set; a read takes the front; nothing else changes |
| CanFiles.OpenExactly | kernel/drivers/meiko/can_main.c:388-406 | an open takes the lowest free slot for a file with an empty ring, no flags and no id, and fails if and only if there is none |
| CanFiles.FanOutInOrder | kernel/drivers/meiko/can_main.c:582-614 | over every run what was read from a file and what its ring holds are, in order, the packets logged as wanted and with room |
| CanFiles.LogStep | kernel/drivers/meiko/can_main.c:582-601 | every open file gets a look at every packet drained |
| CanFiles.LogComplete | kernel/drivers/meiko/can_main.c:582-614 | the log a file's order is stated by holds every packet drained while it stays open |
| CanFiles.LogTells | kernel/drivers/meiko/can_main.c:582-601 | a packet is logged as wanted if and only if it was for this node or a flag of the file was set when it was drained, and as having room if and only if the ring then had |
| CanFiles.FlagsAsLastSet | kernel/drivers/meiko/can_main.c:324-341 | the flags of a file that stays open are those last set |
| CanFiles.StartAgrees | kernel/drivers/meiko/can_main.c:380-386 | the start state |
| CanDevice.FileState.Deliver | kernel/drivers/meiko/can_main.c:582-601 | the packet goes to the end of the file's ring if and only if it is for this node or a flag of the file is set, and there is room; nothing else of the file changes |
| CanDevice.FileState.Read | kernel/drivers/meiko/can_main.c:202-211 | what is returned is the front of the file's ring, as many packets as asked for or all |
| CanDevice.FileState.RingToUser | kernel/drivers/meiko/can_main.c:202-211 | the same for the loop that copies them |
| CanDevice.Device.constructor | kernel/drivers/meiko/can_main.c:380-386 | no file open and no id reserved |
| CanDevice.Device.AllocConsobj | kernel/drivers/meiko/can_main.c:268-284 | the probing loop finds what the probe on values finds |
| CanDevice.Device.FreeConsobj | kernel/drivers/meiko/can_main.c:286-292 | the id is free again; anything that is no id is ignored |
| CanDevice.Device.Open | kernel/drivers/meiko/can_main.c:388-442 | the lowest free slot gets a new file and no other slot changes; none if and only if all are taken |
| CanDevice.Device.Close | kernel/drivers/meiko/can_main.c:408-455 | the file's slot is freed and its id, and no other, given back |
| CanDevice.Device.SetConsobj | kernel/drivers/meiko/can_main.c:317-345 | only the file's id changes |
| CanDevice.Device.RenewConsobj | kernel/drivers/meiko/can_main.c:317-345 | the id held is freed and a free one reserved |
| CanDevice.Device.GetConsobj | kernel/drivers/meiko/can_main.c:317-345 | the old id is given back, a new one taken |
| CanDevice.Device.SetFlags | kernel/drivers/meiko/can_main.c:317-378 | the file's flags become those given and nothing else changes |
| CanDevice.Device.Read | kernel/drivers/meiko/can_main.c:460-488 | what is returned is the front of the file's ring; only that file changes |
| CanDevice.Device.DeliverPkt | kernel/drivers/meiko/can_main.c:582-601 | each open file has the packet at the end of its ring if and only if it is for this node or a flag of the file is set, and there was room; nothing else changes |
| CanDevice.Device.NextReceived | kernel/drivers/meiko/can_main.c:606-614 | the oldest packet received is taken and no open file changes |
| CanDevice.Device.BottomHalf | kernel/drivers/meiko/can_main.c:606-614 | everything received is delivered in order |
| TimeOfDay.ClockMonotone | kernel/include/asm-sparc/meiko/elan.h:26-38 | the 64-bit count orders the registers' readings as time does, with seconds from 2^31 on taken as negative |
| TimeOfDay.DifferenceExact | kernel/include/asm-sparc/meiko/elan.h:26-38 | the difference of two counts is the time between them if and only if the seconds do not pass 2^31 in between; across their wrap to 0 it is right |
| TimeOfDay.Clock.Carry | kernel/arch/sparc/meiko/timer.c:70-79 | the carrying loop normalises and keeps the time |
| TimeOfDay.Clock.GetTimeOfDay | kernel/arch/sparc/meiko/timer.c:60-81 | the result is normal and is the last tick's time plus whole elapsed microseconds if and only if that sum of microseconds fits 32 bits; its assertion fails if and only if the difference is negative as a long; and where the clock is read right it is the reading of the run the variables have gone through |
| TimeOfDay.Clock.TimerInterrupt | kernel/arch/sparc/meiko/timer.c:98-112 | the recorded time is one tick after xtime |
| TimeOfDay.Clock.AddTime | kernel/arch/sparc/meiko/timer.c:92-98 | the kernel's time stays normal and grows by just what is added |
| TimeOfDay.ReadingsAscend | kernel/arch/sparc/meiko/timer.c:60-112 | every step with interrupts in time keeps the readings ascending |
| TimeOfDay.NeverBackwards | kernel/arch/sparc/meiko/timer.c:60-112 | over any run with interrupts in time readings never decrease, whenever they are made |
| TimeOfDay.Clock.Run | kernel/arch/sparc/meiko/timer.c:60-112 | the kernel's own variables through a whole run with interrupts in time: as many times are read as the run reads, they are normal, those of the run, and never decrease |
| TimeOfDay.BoundExact | kernel/arch/sparc/meiko/timer.c:60-112 | readings around an interrupt are in order if and only if no more whole microseconds have passed since the one before than xtime has gained: less than 10,001,000 ns with one tick gained, less than 1000 with the bottom half still to run |
| TimeOfDay.NeverBackwardsExactly | kernel/arch/sparc/meiko/timer.c:60-112 | over every run, with the time read before and after every event, time never goes backwards if and only if that holds at each interrupt |
| TimeOfDay.RegularInTime | kernel/arch/sparc/meiko/timer.c:83-112 | it does when xtime gains exactly one tick between interrupts less than 10,001,000 ns apart |
| TimeOfDay.ReadingSince | kernel/arch/sparc/meiko/timer.c:60-112 | a reading is the kernel's time at the last interrupt, a tick, and the whole microseconds passed since |
| TimeOfDay.ReadingMade | kernel/arch/sparc/meiko/timer.c:60-81 | every reading of a run is the one of the moment it is made |
| EscapeFilter.FeedSplit | cmd/cancon.c:452-493 | it does not matter where the input is cut into reads |
| EscapeFilter.FeedBound | cmd/cancon.c:452-493 | n characters in give at most n out, and one more if an escape was withheld |
| EscapeFilter.FilterMeaning | cmd/cancon.c:452-493 | the output is the input without exactly the recognised line-start commands and a withheld last escape; the commands acted on are exactly those |
| EscapeFilter.PlainTextUnchanged | cmd/cancon.c:452-493 | text without a line-start escape passes the filter unchanged and nothing is acted on |
| EscapeFilter.CommandsAre | cmd/cancon.c:459-484 | the five commands after `&` at the start of a line and what becomes of every other character there; `&` in the middle of a line is passed on |
| EscapeFilter.KeepsUp | cmd/cancon.c:452-493 | with a writer that empties the queue between reads nothing is dropped |
| EscapeFilter.OutChars.Signal | cmd/cancon.c:288-303 | as many characters as fit are accepted, in order |
| EscapeFilter.OutChars.WaitFor | cmd/cancon.c:307-322 | the writer gets the oldest characters, at most as many as it asked for |
| EscapeFilter.TtyReader.Chunk | cmd/cancon.c:452-493 | at most five characters come out of a read of four, so the buffer of eight is never overrun |
| EscapeFilter.TtyReader.Round | cmd/cancon.c:457-491 | what the filter passes on in a round, and the front of it that the queue takes |
| EscapeFilter.TtyReader.Run | cmd/cancon.c:452-493 | for all cuts of the input and all interleavings with the writer the queue accepts the filtered input in order, less the characters that did not fit, which are given exactly |

## Left out

- CrossCall.Barrier: holds for a call that takes the lock; before `smp_processors_ready` is set a call only runs
  locally.
- Level 15 is taken to be deliverable at any moment, also on a processor spinning on the lock, the function called to
  return, and memory to be sequentially consistent.
- Bit maps of processors are sets, so a shift by 32 or more is not modelled; `cpu_number_map` and `__cpu_logical_map`
  are not modelled.
- CpuBoot.Smp.BootCpus: what `cpu_callin_map` shows at the two looks is a parameter; idle threads, PROM calls, delay
  loops and the freeing of trap tables are left out.
- `smp4m_callin`, `smp4m_message_pass` and the per-processor timer.
- The bounds of the SCSI and DVMA regions are parameters, since `asm/vaddrs.h` is not part of this model.
- IommuDriver.Iommu.GetScsiSgl: when it panics in the middle of a list nothing is said about the table.
- IommuDriver.Iommu.Environment: the referenced and modified bits the IOMMU may set, and failing bus accesses, are left
  out; the TLB may hold any number of entries.
- IommuDriver.Iommu.MapDmaArea: the physical pages that `get_free_page` hands out are a parameter, and the entries of
  the processor's own page table are left out. When the pages run out in the middle nothing is said about the table.
- Iommu operations are serialised, as their callers do it; two at once are not modelled.
- RingInterleaving.FifoWhenAlone: accesses are made in program order, and `RING_CLEAR` beside a consumer is not covered.
- RingInterleaving.InterruptionExact: the calls in between are whole, as interrupts make them; producers on two
  processors that overlap otherwise are only covered by what holds when they do not overlap.
- ConsoleOutput.OutputConserved: handlers are atomic and the answer of `send_pkt` is a parameter.
- ConsoleOwner.AnswersTell: packets for the heartbeat, TESTRW, BREAK, AUTOBOOT, BOOT_DEV, RESET_IO and FORCE_DISCONN
  objects do not touch the owner and are answered elsewhere.
- ConsoleNode.Node.SaveOwner: setting the PROM property is taken to succeed.
- ConsoleNode.Node.DispatchObject: the answers of the other kernel objects.
- ConsoleNode.Node.PacketArrives: likewise; the texts of the messages printed on the way are parameters.
- ConsoleClients.MutualExclusion: for clients without `-f`, each disconnecting once a session, and with no wait timing
  out. Answers are paired with requests there; `AckMailbox.AnswerPaired` says when that holds.
- ConsoleHeist.Thief.Heist: each acknowledgement is taken to answer the packet last sent, and times and sleeps are left
  out; so is the standard header of the packets it sends, on which no answer's meaning depends
  (`ConsoleClients.RequestReaches` has it for requests).
- ConsoleTyping.TypedExactlyOnce: packets without characters, which a spurious wake-up sends and which add nothing, and
  characters sent by anyone else meanwhile.
- CanDevice.FileState.Read: faults of the copy to user space, the wake-up of sleeping readers and non-blocking reads are
  left out.
- CanDevice.Device.Open: a failing allocation of the file's state is left out.
- CanDevice.Device.SetFlags: the use count of promiscuous mode and the mode of the chip are left out.
- CanDevice.Device.DeliverPkt: delivery to user space; what the kernel does with the same packet is
  `ConsoleNode.Node.PacketArrives`.
- Chip registers, interrupts, the transmit path from `outq` and packets a node sends to itself.
- TimeOfDay.Clock.GetTimeOfDay: a tick recorded at clock value 0 reads as no tick yet, as in the code; interrupts are
  held off while the variables are read.
- TimeOfDay.NeverBackwards: the kernel's time only moves forward, so `settimeofday` is left out; readings are those of
  an unbounded clock; `TimeOfDay.Clock.GetTimeOfDay` says when the kernel's variables give them, and
  `TimeOfDay.Clock.Run` is for runs in which they do.
- EscapeFilter.TtyReader.Run: what the commands do, threads, signals and terminal modes are left out; the reader may
  find the queue at any stage of the writer's work, but each queue operation is atomic under its mutex.
- EscapeFilter.OutChars.WaitFor: the wait itself; it is a single wait in the code, so it may return with nothing.
- The bargraph and Elan mapping drivers, the other command-line tools, and host and object name tables.
