# MetalOS bring-up core in Dafny

This project models the bring-up layer of the MetalOS kernel and its UEFI bootloader. It proves properties of that model. It covers:

- **Application-processor start-up** (`Smp`): a 16-slot table of per-core records, a core count and a multicore flag. Each candidate core is sent INIT, STARTUP, STARTUP and then polled up to 100 times.
- **Interrupt descriptor table and 8259A controllers** (`Interrupts`): packing of 64-bit handler addresses into long-mode gates and the 256-entry table `init` fills. It also covers the ICW1-ICW4 remap sequence, checked against a small state machine of the two 8259A controllers, and the end-of-interrupt writes of the handler.
- **Local APIC driver** (`Apic`): a simulated 4 KiB register block with a trace of register accesses.
- **Spinlock** (`Spinlock`): the one-word lock as a class, plus a sequential step semantics.
- **Global descriptor table** (`Gdt`): descriptor bit packing and the five standard entries.
- **Memory** (`Memory`):
  - the first-fit page bitmap of the physical memory manager and its page counter;
  - the 16-byte bump heap;
  - `memset`, `memcpy` and `memcmp`.
- **PCI** (`Pci`):
  - configuration mechanism #1 address encoding (section 3.2.2.3.2 of the PCI Local Bus Specification 3.0);
  - header decoding (section 6.1 of the same specification);
  - the bus scan into a 256-entry device table;
  - device lookup and enabling bus mastering.
- **Framebuffer console** (`Console`): the cursor state machine, clearing and 8x8 character cells. `ConsoleMock` replays the unit-test mocks and their assertions.
- **Bootloader helpers** (`Bootloader`, `BootAddress`):
  - GUID comparison;
  - the search of the UEFI configuration table for the ACPI 2.0 RSDP (section 4.6 of the UEFI Specification);
  - the byte fill and copy loops and status printing;
  - framebuffer geometry from the Graphics Output Protocol;
  - the address-validation and page-alignment helpers of the bootloader unit tests.

Most kernel components exist twice, as a C++ class (`*.cpp`) and as free C functions (`*.c`). Each component is modelled once and the rows below cite both files. The two variants differ in two places:

- **Interrupt handler.** The C handler has no timer callback and no APIC branch. It is `Interrupts.LegacyDispatch`, and `Interrupts.CVariantIsLegacyPath` relates it to the C++ `Interrupts.Dispatch`.
- **PCI initialisation.** `pci_init` does not reset the device count. It is `Pci.PciManager.Scan`, while `PCIManager::init` is `Pci.PciManager.Init`. `Pci.RescanDuplicates` shows what a second `pci_init` does.

The C wrapper functions `apic_*`, `smp_*`, `idt_init` and `gdt_init` forward to a static object (`globalAPIC`, `globalSMP`, `globalInterruptManager`, `globalGDT`) and are covered by that class's members. The `spinlock_*` functions use no static object: they repeat the class code on the caller's `spinlock_t` word, so the `Spinlock` members cover them too.

Hardware, firmware and other cores are explicit inputs:

- **PCI configuration space:** a function from address to dword.
- **Other cores:** the cores that mark themselves online between polls are an environment function, and how long another holder keeps a spinlock is a number.
- **APIC:** how often ICR low still reads "busy" is a number.
- **Timer, port writes and `lidt`/`sti`:** events in a trace.
- **Firmware:** `LocateProtocol` results and the configuration table are values.

Integer widths are modelled as bit-vectors (`bv8` to `bv64`) where the source depends on them. 64-bit wrap-around is written out as `% 2^64` where it matters.

## Model

| member | source | states |
|---|---|---|
| Spinlock.Spinlock.constructor | kernel/src/spinlock.cpp:12 | a new lock's word is 0 |
| Spinlock.Spinlock.Init | kernel/src/spinlock.cpp:14-16 | `init` stores 0 in the word; `spinlock_init` (kernel/src/spinlock.c:11-13) is the same |
| Spinlock.Spinlock.TryAcquire | kernel/src/spinlock.cpp:39-49 | the word is 1 afterwards and the call succeeds exactly when the old word was 0; it agrees with the step semantics `Step` |
| Spinlock.Spinlock.Acquire | kernel/src/spinlock.cpp:18-37 | returns only after an exchange that read 0, leaving the word at 1: after one exchange when the lock was free, after `holdFor + 2` exchanges when it was held, the holder releasing it after `holdFor + 1` failed exchanges |
| Spinlock.Spinlock.Release | kernel/src/spinlock.cpp:51-57 | stores 0 whatever the word was (no owner check); agrees with `Step` |
| Spinlock.Spinlock.IsLocked | kernel/src/spinlock.cpp:59-61 | answers `word != 0` and changes nothing |
| Spinlock.Run | kernel/src/spinlock.c:16-62 | a sequential run answers once per operation |
| Spinlock.HeldUntilReleased | kernel/src/spinlock.cpp:39-57 | from a held word and without a release, a lone thread's run completes exactly when it contains no `Acquire` (acquire spins forever otherwise); the word stays non-zero, every try-acquire answers false and every is-locked answers true |
| Spinlock.AtMostOneHolder | kernel/src/spinlock.cpp:18-49 | after a successful acquire or try-acquire, every later try-acquire fails until a release |
| Spinlock.DoubleReleaseHarmless | kernel/src/spinlock.cpp:51-57 | one or two releases from any word leave the same state as a free lock |
| Gdt.Pack | kernel/src/gdt.cpp:19-28 | the packed descriptor reads back the 32-bit base, the low 20 bits of the limit, the flags nibble `gran & 0xF0` and the access byte; `gdt_set_gate` (kernel/src/gdt.c:16-25) is the same |
| Gdt.StandardTable | kernel/src/gdt.cpp:30-52 | entry 0 is null; entries 1-4 have base 0, limit 0xFFFFF, are present and read/write; only entries 1 and 3 are executable and in long mode; entries 1-2 are privilege 0 and entries 3-4 privilege 3; access 0x9A/0x92/0xFA/0xF2, granularity 0xAF/0xCF/0xAF/0xCF (kernel/src/gdt.c:36-52) |
| Gdt.Gdt.constructor | kernel/src/gdt.cpp:14-16 | the pointer limit is 5 * 8 - 1 = 39 and every entry is null |
| Gdt.Gdt.SetGate | kernel/src/gdt.cpp:19-28 | entry `num` becomes the packed descriptor and no other entry changes |
| Gdt.Gdt.Init | kernel/src/gdt.cpp:30-52 | the table becomes the standard table, the limit is 39 (kernel/src/gdt.c:32), and the table is loaded once with that limit |
| Apic.IdOf | kernel/src/apic.cpp:52-55 | the APIC id is bits 24-31 of the ID register, and shifting it back gives exactly those bits (kernel/src/apic.c:55-58) |
| Apic.Polls | kernel/src/apic.cpp:63-65 | the wait loop issues `n` reads of ICR low and nothing else |
| Apic.Apic.constructor | kernel/src/apic.cpp:29 | the driver sees the given register block and an empty trace |
| Apic.Apic.Read | kernel/src/apic.cpp:31-33 | returns the word at index offset / 4 and records one load (kernel/src/apic.c:30-32) |
| Apic.Apic.Write | kernel/src/apic.cpp:35-37 | changes only the word at index offset / 4 and records one store (kernel/src/apic.c:35-37) |
| Apic.Apic.Init | kernel/src/apic.cpp:43-50 | exactly two stores, 0x1FF to the spurious register and then 0 to the task priority register; the APIC is software-enabled with spurious vector 0xFF (kernel/src/apic.c:45-52) |
| Apic.Apic.GetId | kernel/src/apic.cpp:52-55 | one load of the ID register, no store, result `IdOf` of it |
| Apic.Apic.SendEOI | kernel/src/apic.cpp:57-59 | exactly one store: 0 to the EOI register (kernel/src/apic.c:61-63) |
| Apic.Apic.SendIPI | kernel/src/apic.cpp:61-72 | while delivery status reads busy, only reads of ICR low; then the destination shifted to bits 24-31 is stored to ICR high strictly before the bitwise or of mode and vector to ICR low; exactly two stores (kernel/src/apic.c:66-77) |
| Interrupts.PackGate | kernel/src/interrupts.cpp:43-51 | the three offset fields reassemble to the handler; selector and type are as given; `ist` and the reserved word are 0 (kernel/src/interrupts.c:53-61) |
| Interrupts.ClearedGateIsZero | kernel/src/interrupts.cpp:77-79 | clearing a gate with zero arguments gives the all-zero entry |
| Interrupts.InstalledTable | kernel/src/interrupts.cpp:75-127 | vectors 0-31, 32 and 33 carry their stub, selector 0x08 and flags 0x8E; vectors 34-255 are all-zero and not present (kernel/src/interrupts.c:87-142) |
| Interrupts.InstalledHandlersNonZero | kernel/src/interrupts.cpp:82-120 | with non-null stubs, a vector is present exactly when it is below 34, and a present vector's handler is non-zero |
| Interrupts.RemapResult | kernel/src/interrupts.cpp:53-73 | whatever state the two 8259A controllers start in, the ten-write sequence leaves the master at vector base 0x20, cascade 0x04, 8086 mode, mask 0xFF, and the slave at base 0x28, cascade identity 2, 8086 mode, mask 0xFF (kernel/src/interrupts.c:64-84) |
| Interrupts.Dispatch | kernel/src/interrupts.cpp:129-150 | the timer callback runs exactly for vector 32, and first; vectors outside 32-47 get no acknowledgement; inside, with multicore mode and an APIC the events are exactly the timer callback (vector 32 only) followed by one APIC EOI, with no port writes; without both there is no APIC EOI |
| Interrupts.LegacyDispatch | kernel/src/interrupts.c:145-160 | only writes of 0x20 to controller command ports: one for vectors 32-39, two for 40-47, none otherwise |
| Interrupts.CVariantIsLegacyPath | kernel/src/interrupts.c:145-160 | the C handler is the C++ handler in single-core mode with the timer callback removed |
| Interrupts.LegacyEoiMatchesBases | kernel/src/interrupts.cpp:139-148 | with the vector bases 0x20/0x28, the legacy writes are exactly the acknowledgements the controllers need: the slave first for vectors 40-47, then the master |
| Interrupts.LegacyEoiMatchesRemap | kernel/src/interrupts.cpp:53-73 | after the remap, single-core dispatch of a hardware vector acknowledges exactly the controllers that raised it |
| Interrupts.LegacyScenario | kernel/src/interrupts.cpp:129-150 | vector 32 gives the timer callback and one master EOI; vector 44 gives a slave then a master EOI |
| Interrupts.InterruptManager.constructor | kernel/src/interrupts.cpp:38-41 | the table limit is 256 * 16 - 1 = 4095 and every gate is zero |
| Interrupts.InterruptManager.SetGate | kernel/src/interrupts.cpp:43-51 | gate `num` becomes the packed gate and no other gate changes |
| Interrupts.InterruptManager.RemapPIC | kernel/src/interrupts.cpp:53-73 | appends exactly the ten port writes of the remap sequence |
| Interrupts.InterruptManager.Init | kernel/src/interrupts.cpp:75-127 | the table becomes `InstalledTable`, then the remap, the table load with limit 4095 and the interrupt enable follow, in that order; the limit stays 4095, the value the constructor sets (kernel/src/interrupts.cpp:38) and `idt_init` sets itself (kernel/src/interrupts.c:87-142) |
| Interrupts.InterruptManager.HandleInterrupt | kernel/src/interrupts.cpp:129-150 | appends exactly the events of `Dispatch` |
| Smp.CandidatesShape | kernel/src/smp.cpp:122-127 | the ids tried are every id below 12 except the bootstrap core's, each once, in increasing order (kernel/src/smp.c:125-130) |
| Smp.IpiRounds | kernel/src/smp.cpp:74-84 | three interrupts per candidate tried |
| Smp.Started | kernel/src/smp.cpp:122-135 | the intended count: it grows by at most one per candidate and never passes 16 |
| Smp.SilentStartsNone | kernel/src/smp.cpp:122-135 | when no core answers, the intended bring-up counts no candidate |
| Smp.SelfMarkingStartsAll | kernel/src/smp.cpp:122-135 | when every core marks the slot written for it, every candidate is counted while there is room |
| Smp.TwelveCoreMachine | kernel/src/smp.cpp:122-137 | when the bootstrap core has id 0 and the eleven others answer, the intended count is 12 |
| Smp.PollMissesNewSlot | kernel/src/smp.cpp:87-97 | on the first candidate of a fresh bring-up, a poll of the slots below the count (index 1) fails even when the candidate marks its slot at once; a poll that includes slot 1 succeeds |
| Smp.AsWrittenPollFails | kernel/src/smp.cpp:89 | from a count of 1, only the bootstrap core's slot is polled, so no other candidate is ever seen |
| Smp.CorrectedPollDecides | kernel/src/smp.cpp:87-97 | when no counted slot names the candidate, the widened poll succeeds exactly when the candidate marks the slot just written for it |
| Smp.SmpManager.constructor | kernel/src/smp.cpp:25-31 | count 1, multicore off, slot 0 = (cpu 0, APIC 0, offline, stack 0), every slot blank (kernel/src/smp.c:13-15) |
| Smp.SmpManager.InitCPU | kernel/src/smp.cpp:50-57 | ids of 16 and up change nothing; otherwise only slot `cpuId` is rewritten, offline (kernel/src/smp.c:46-53) |
| Smp.SmpManager.MarkCPUOnline | kernel/src/smp.cpp:59-63 | ids of 16 and up change nothing; otherwise only slot `cpuId`'s online flag is set (kernel/src/smp.c:56-60) |
| Smp.SmpManager.EnvironmentMarks | kernel/src/smp.cpp:59-63 | other cores running during one delay set the online flags of the slots they mark, and nothing else |
| Smp.SmpManager.WaitOnline | kernel/src/smp.cpp:87-97 | succeeds exactly when a slot below the bound names the candidate and is or becomes online within 100 polls; only online flags change, and only through the environment |
| Smp.SmpManager.StartAP | kernel/src/smp.cpp:72-98 | sends INIT with vector 0, then STARTUP with vector 8 twice, in that order; succeeds exactly when the poll of the slots below the current count succeeds (kernel/src/smp.c:71-97) |
| Smp.SmpManager.StartAPCorrected | kernel/src/smp.cpp:72-98 | the same three interrupts; the poll also covers the slot at index = count |
| Smp.SmpManager.ProbeCandidate | kernel/src/smp.cpp:128-134 | writes the candidate at index = count (its APIC id and cpu id = count), starts it, and raises the count by exactly one on success and by nothing otherwise; the slots above keep all but their online flags |
| Smp.SmpManager.ProbeCandidateCorrected | kernel/src/smp.cpp:128-134 | as above with the widened poll: a new candidate is counted exactly when it marks its slot, and that slot is then online |
| Smp.SmpManager.StartCandidates | kernel/src/smp.cpp:122-135 | the loop as written never lowers the count; from a count of 1 it sends the interrupts for every candidate in order and leaves the count at 1 |
| Smp.SmpManager.CandidateStep | kernel/src/smp.cpp:122-135 | one pass of the loop as written keeps the count at 1 and extends the interrupt log by one candidate's rounds |
| Smp.SmpManager.StartCandidatesCorrected | kernel/src/smp.cpp:122-135 | the corrected loop from a count of 1 reaches the intended count `Started`, with every counted slot online and numbered by its index |
| Smp.SmpManager.CandidateStepCorrected | kernel/src/smp.cpp:122-135 | one pass of the corrected loop keeps the count equal to `Started` for the candidates tried so far |
| Smp.SmpManager.Init | kernel/src/smp.cpp:100-138 | without an APIC only slot 0 goes online, the count is 1 and no interrupt is sent; with one, slot 0 is (0, bootstrap id, online); the multicore flag equals count > 1; from a fresh manager the count stays 1 and multicore stays off for every environment (kernel/src/smp.c:100-141) |
| Smp.SmpManager.InitCorrected | kernel/src/smp.cpp:100-138 | the same, except that from a fresh manager the count is the intended `Started` and every counted slot is online |
| Smp.SmpManager.GetCurrentCPU | kernel/src/smp.cpp:33-48 | 0 in single-core mode; otherwise the cpu id of the first counted slot with the caller's APIC id, or 0 (kernel/src/smp.c:28-43) |
| Smp.SmpManager.GetCPUCount | kernel/src/smp.cpp:140-142 | the count |
| Smp.SmpManager.IsEnabled | kernel/src/smp.cpp:144-146 | the multicore flag |
| Smp.SmpManager.GetCPUInfo | kernel/src/smp.cpp:148-153 | nothing exactly for ids of 16 and up, otherwise that slot's record (kernel/src/smp.c:154-159) |
| Smp.FirstMatchFrom | kernel/src/smp.cpp:39-44 | the first slot in range with the given APIC id, or none when no slot in range has it |
| Memory.SetUsed | kernel/src/memory.cpp:41-43 | page `i` becomes used and every other page keeps its state |
| Memory.ClearUsed | kernel/src/memory.cpp:66-70 | page `i` becomes free and every other page keeps its state |
| Memory.FirstFree | kernel/src/memory.cpp:37-53 | the lowest free page in range, or none exactly when every page in range is used |
| Memory.ZeroBitmapUnused | kernel/src/memory.cpp:21-33 | a cleared bitmap has no page in use |
| Memory.SetUsedCounts | kernel/src/memory.cpp:43-44 | marking a free page adds exactly one to the used count |
| Memory.ClearUsedCounts | kernel/src/memory.cpp:70-71 | clearing a used page takes exactly one off the used count |
| Memory.ClearFreeCounts | kernel/src/memory.cpp:70-71 | clearing a free page leaves the used count alone |
| Memory.AllocKeepsCount | kernel/src/memory.cpp:43-44 | marking a free page keeps a correct 64-bit counter correct |
| Memory.FreeKeepsCount | kernel/src/memory.cpp:70-71 | freeing a used page keeps a correct 64-bit counter correct |
| Memory.DoubleFreeDesynchronises | kernel/src/memory.cpp:70-71 | freeing an already free page leaves the bitmap as it is but still decrements the counter, so the counter no longer matches (kernel/src/memory.c:61-77) |
| Memory.LowAddressOutOfRange | kernel/src/memory.cpp:60-64 | an address below 16 MiB wraps to a page index beyond every managed page, so freeing it is ignored |
| Memory.PageIndexRoundTrip | kernel/src/memory.cpp:48-60 | freeing the address `allocPage` returned for page `i` addresses page `i` |
| Memory.PhysicalMemoryManager.constructor | kernel/src/memory.cpp:14-19 | no pages, none used, bitmap cleared |
| Memory.PhysicalMemoryManager.Init | kernel/src/memory.cpp:21-33 | 32768 pages (128 MiB / 4096), all free, counter 0 and consistent with the bitmap (kernel/src/memory.c:24-36) |
| Memory.PhysicalMemoryManager.AllocPage | kernel/src/memory.cpp:35-54 | first fit: the lowest free page is marked and counted and its address 0x1000000 + 4096 i returned; when every page is used, nothing and no change; a consistent counter stays consistent (kernel/src/memory.c:39-58) |
| Memory.PhysicalMemoryManager.FreePage | kernel/src/memory.cpp:56-72 | out-of-range indices, including addresses below 16 MiB by wrap-around, change nothing; otherwise the bit is cleared and the counter decremented unconditionally; freeing a used page keeps a consistent counter consistent (kernel/src/memory.c:61-77) |
| Memory.PhysicalMemoryManager.GetTotalMemory | kernel/src/memory.cpp:74-76 | pages times 4096 |
| Memory.PhysicalMemoryManager.GetFreeMemory | kernel/src/memory.cpp:78-80 | (pages - used) * 4096 in 64-bit arithmetic; with a consistent counter, the bytes of the free pages |
| Memory.RoundUp16Bounds | kernel/src/memory.cpp:98 | below the top 15 sizes, rounding gives the least multiple of 16 at or above the size |
| Memory.RoundUp16Wraps | kernel/src/memory.cpp:98 | for size 2^64 - 1 the rounding wraps to 0 |
| Memory.HeapAllocator.constructor | kernel/src/memory.cpp:83-84 | the heap is unset (all three pointers 0) |
| Memory.HeapAllocator.Init | kernel/src/memory.cpp:86-90 | the heap spans `start .. start + size` with the bump pointer at its start (kernel/src/memory.c:90-94) |
| Memory.HeapAllocator.Alloc | kernel/src/memory.cpp:92-108 | fails without moving the bump pointer when the heap is unset or the rounded size does not fit; otherwise returns the old bump pointer and advances it by the rounded size (kernel/src/memory.c:97-113) |
| Memory.HeapAllocator.Calloc | kernel/src/memory.cpp:110-119 | allocates the 64-bit product `num * size` and zeroes exactly that many bytes on success (kernel/src/memory.c:116-125) |
| Memory.HeapAllocator.AllocChecked | kernel/src/memory.cpp:92-108 | corrected allocation: a returned block lies inside the heap and holds at least `size` bytes; it fails exactly when the heap is unset, the rounding would wrap, or the block does not fit |
| Memory.HeapAllocator.CallocChecked | kernel/src/memory.cpp:110-119 | corrected zeroing allocation: it fails exactly when the heap is unset, the product `num * size` is above 2^64 - 16, or the rounded block does not fit; a returned block holds all `num * size` bytes and exactly those are zeroed |
| Memory.CallocRoundingOverflow | kernel/src/memory.cpp:98-100 | `calloc(1, 2^64 - 1)` succeeds with an empty block yet zeroes 2^64 - 1 bytes, beyond the heap's end |
| Memory.CallocProductOverflow | kernel/src/memory.cpp:111 | `calloc(2^32, 2^32)` computes a total of 0 and succeeds with an empty block |
| Memory.CallocRoundingScenario | kernel/src/memory.cpp:98-100 | on a set-up 64-bit heap, `calloc(1, 2^64 - 1)` returns the bump pointer without moving it and logs 2^64 - 1 zeroed bytes that run past the heap's end |
| Memory.CallocProductScenario | kernel/src/memory.cpp:110-119 | on a set-up heap, `calloc(2^32, 2^32)` returns the bump pointer without moving it and logs an empty zeroed block |
| Memory.Filled | kernel/src/memory.cpp:128-137 | `count` copies of `(uint8_t)val` |
| Memory.MemSet | kernel/src/memory.cpp:128-137 | the first `count` bytes become `(uint8_t)val`, the rest are untouched, and the buffer is returned (kernel/src/memory.c:136-145) |
| Memory.MemCpy | kernel/src/memory.cpp:139-148 | the first `count` bytes of the destination equal the source's, the rest are untouched (kernel/src/memory.c:147-156) |
| Memory.CompareProperties | kernel/src/memory.cpp:150-161 | the comparison is 0 exactly on equal buffers, is antisymmetric and lies in -255..255 |
| Memory.CompareFindsFirstDifference | kernel/src/memory.cpp:150-161 | a non-zero answer is the difference of the bytes at the first position where the buffers differ, after an equal prefix |
| Memory.MemCmp | kernel/src/memory.cpp:150-161 | returns `Compare` of the first `count` bytes (kernel/src/memory.c:158-169) |
| Pci.ConfigAddress | kernel/src/pci.cpp:26-32 | the enable bit is set and bits 0-1 are clear (kernel/src/pci.c:28-39) |
| Pci.ConfigAddressDecodes | kernel/src/pci.cpp:26-32 | with device below 32 and function below 8, bus, device, function and the dword-aligned register come back out of the address |
| Pci.WideDeviceAliasesBus | kernel/src/pci.cpp:28 | device 32 on bus 0 encodes the same address as device 0 on bus 1 |
| Pci.Bars | kernel/src/pci.cpp:82-84 | six base address registers, from offsets 0x10 + 4 i |
| Pci.DecodeReassembles | kernel/src/pci.cpp:52-66 | the vendor and device ids, and class, subclass, interface and revision, reassemble to the two identification dwords |
| Pci.VendorMask | kernel/src/pci.cpp:57-59 | the vendor id is 0xFFFF exactly when the low half of dword 0 is all ones |
| Pci.FoundArePresent | kernel/src/pci.cpp:88-115 | every device the scan lists answers at its own location and is described by its own header |
| Pci.AppendCappedKeepsPrefix | kernel/src/pci.cpp:69-70 | appending one at a time keeps the table and as many new devices as fit in 256 entries, in order, and never more than 256 |
| Pci.FreshTable | kernel/src/pci.cpp:88-115 | a scan into an empty table keeps the first 256 devices found, in order |
| Pci.RescanDuplicates | kernel/src/pci.c:94-127 | a second `pci_init` without the reset lists every device again, while they fit (kernel/src/pci.c:25) |
| Pci.BusMasterOnlyBitTwo | kernel/src/pci.cpp:133 | the command written back has bit 2 set and every other bit as read |
| Pci.PciManager.constructor | kernel/src/pci.cpp:23 | an empty table and no port traffic |
| Pci.PciManager.ReadConfig | kernel/src/pci.cpp:25-36 | the address goes to 0xCF8 before the data is read from 0xCFC (kernel/src/pci.c:28-39) |
| Pci.PciManager.WriteConfig | kernel/src/pci.cpp:38-49 | the address goes to 0xCF8, then the value to 0xCFC (kernel/src/pci.c:42-53) |
| Pci.PciManager.ReadBars | kernel/src/pci.cpp:82-84 | the six registers `Bars` names |
| Pci.PciManager.ProbeDevice | kernel/src/pci.cpp:51-86 | appends the decoded device unless the vendor id is 0xFFFF or the table is full (kernel/src/pci.c:56-91) |
| Pci.PciManager.ScanSlot | kernel/src/pci.cpp:93-112 | function 0 if present, then functions 1-7 that answer only when bit 23 of dword 0x0C is set |
| Pci.PciManager.ScanBus | kernel/src/pci.cpp:93-113 | the 32 device slots of one bus, in order |
| Pci.PciManager.Scan | kernel/src/pci.c:94-127 | appends every device found, in order, up to the cap, without resetting the table |
| Pci.PciManager.Init | kernel/src/pci.cpp:88-115 | resets the table and scans: the table is the first 256 devices found, each present at its location |
| Pci.PciManager.FindDevice | kernel/src/pci.cpp:117-124 | the lowest stored index with both ids, or nothing exactly when no stored device has both (kernel/src/pci.c:130-138) |
| Pci.PciManager.EnableBusMastering | kernel/src/pci.cpp:126-137 | no traffic for a null device; otherwise the command dword is read and written back with bit 2 set (kernel/src/pci.c:141-152) |
| Console.PaintedPixel | kernel/src/core/console.c:64-67 | in a painted rectangle, the pixel at column `cx`, row `cy` has the brush's colour there |
| Console.PaintedOutside | kernel/src/core/console.c:34-41 | painting changes no pixel outside the rectangle |
| Console.Text | kernel/src/core/console.c:101-108 | the characters of a C string before its NUL: a prefix without NUL |
| Console.TextEndsAtNul | kernel/src/core/console.c:104 | the text is the prefix up to the first NUL |
| Console.PutTouchesOnlyTheCell | kernel/src/core/console.c:72-99 | newline and carriage return change no pixel; any other character changes only pixels of the cell at the cursor |
| Console.DrawnPixel | kernel/src/core/console.c:51-70 | a character drawn in range gives cell pixel (cx, cy) the foreground colour exactly when `(c + cy) & (1 << cx)` is non-zero on the 32-bit two's-complement `int`, else the background colour |
| Console.LitPatterns | kernel/src/core/console.c:64 | the cell pattern on sample characters: 'A' lights bits 0 and 6 of its top row, a negative `char` is read in two's complement (-1 lights every bit, -128 only bit 7), and -1 + 1 lights nothing |
| Console.CursorStaysOnScreen | kernel/src/core/console.c:72-99 | on a non-empty screen, a cursor on the screen stays on it after any character |
| Console.PutAllStaysOnScreen | kernel/src/core/console.c:101-108 | the same for a whole string |
| Console.PutAllSnoc | kernel/src/core/console.c:101-108 | printing a string then a character is printing the longer string |
| Console.Console.constructor | kernel/src/core/console.c:19 | the zero-initialised console has no framebuffer |
| Console.Console.Init | kernel/src/core/console.c:21-30 | stores the geometry, homes the cursor, white on black |
| Console.Console.SetColor | kernel/src/core/console.c:45-48 | sets exactly the two colours |
| Console.Console.Clear | kernel/src/core/console.c:32-43 | no framebuffer: nothing changes; otherwise every visible pixel becomes the background colour, the rest keep theirs, and the cursor goes home |
| Console.Console.DrawChar | kernel/src/core/console.c:51-70 | nothing when the cell sticks out to the right or the bottom; otherwise exactly the 64 pixels of the cell are painted |
| Console.Console.PutChar | kernel/src/core/console.c:72-99 | the screen becomes `Put` of it: newline homes x and moves down 8 rows, wrapping to the top; carriage return homes x; anything else is drawn and advances 8 columns, wrapping to the next row |
| Console.Console.Print | kernel/src/core/console.c:101-108 | a null string changes nothing; otherwise the screen becomes that of putting each character before the NUL |
| Console.Console.Println | kernel/src/core/console.c:110-113 | print, then a newline |
| ConsoleMock.InitScenario | tests/unit/test_console.c:59-72 | a 1920x1080 console with pitch 7680 has its geometry stored, the cursor home and white on black (mock at tests/unit/test_console.c:29-38) |
| ConsoleMock.SetColorScenario | tests/unit/test_console.c:75-84 | the colours read back are those set (mock at tests/unit/test_console.c:40-43) |
| ConsoleMock.ClearScenario | tests/unit/test_console.c:87-107 | clearing from cursor (100, 200) homes the cursor and pixels 0, 1 and 10 get the background (mock at tests/unit/test_console.c:45-56) |
| ConsoleMock.NullFramebufferScenario | tests/unit/test_console.c:110-119 | without a framebuffer, clearing leaves the cursor and geometry alone |
| ConsoleMock.SmallDimensionsScenario | tests/unit/test_console.c:122-129 | small dimensions are stored verbatim |
| BootAddress.IsValidMemoryAddress | tests/unit/test_bootloader.c:54-62 | an accepted address is at or above the kernel load address of 1 MiB and fits in 32 bits |
| BootAddress.AlignToPage | tests/unit/test_bootloader.c:86-88 | the result is page aligned, and an aligned address is returned unchanged |
| BootAddress.ValidRange | tests/unit/test_bootloader.c:54-62 | an address is accepted exactly when it lies in 0x100000 .. 0xFFFFFFFF |
| BootAddress.AlignedAndIdempotent | tests/unit/test_bootloader.c:86-88 | the result is page aligned, an aligned address is returned unchanged, and aligning twice is aligning once |
| BootAddress.AlignRoundsUp | tests/unit/test_bootloader.c:86-99 | without overflow the result is at least the address and less than a page above it |
| BootAddress.AlignWrapsAtTop | tests/unit/test_bootloader.c:86-88 | addresses in the last partial page of the 64-bit space round to 0 |
| BootAddress.KernelRange | tests/unit/test_bootloader.c:11-51 | the kernel loads at 1 MiB, its maximum size lies in 1 MiB .. 100 MiB, and its range neither wraps nor leaves the accepted addresses |
| BootAddress.Examples | tests/unit/test_bootloader.c:65-99 | the accepted, rejected and rounded addresses of the unit tests |
| Bootloader.GuidCompare | bootloader/src/main.c:38-46 | 1 exactly when all fields and all eight bytes agree, else 0 |
| Bootloader.GetRsdp | bootloader/src/main.c:309-320 | the table of the lowest-index entry carrying the ACPI 2.0 GUID, or nothing exactly when no entry carries it |
| Bootloader.EfiMemset | bootloader/src/main.c:63-67 | the first `n` bytes become `(unsigned char)c`, the rest are untouched, and the buffer is returned |
| Bootloader.EfiMemcpy | bootloader/src/main.c:84-89 | the first `n` bytes of the destination equal the source's, the rest are untouched, and the destination is returned |
| Bootloader.PrintString | bootloader/src/main.c:104-108 | the string goes to the console exactly when there is a console output protocol, and nothing is output otherwise |
| Bootloader.PrintStatus | bootloader/src/main.c:123-130 | nothing without a console; otherwise the operation, then " [OK]\r\n" exactly on success and " [FAILED]\r\n" exactly otherwise |
| Bootloader.InitializeGraphics | bootloader/src/main.c:155-178 | fails exactly when the protocol lookup fails, passing its status on; without a mode or its information the boot information is unchanged; otherwise the framebuffer fields are filled, with pitch = pixels per scan line * 4 in 32-bit arithmetic and 32 bits per pixel |
| Bootloader.PitchWraps | bootloader/src/main.c:173 | `initialize_graphics` on a mode whose scan line holds 2^30 pixels reports a framebuffer pitch of 0 |

## Left out

- Inline assembly (`lidt`, `sti`, `lgdt`/`gdt_flush`, `cpuid`, `outb`/`inb`/`outl`/`inl`, `pause`, `xchg`): these become trace events, inputs or plain updates, not processor semantics.
- Apic.IsAvailable: bit 9 of EDX after CPUID leaf 1 is taken as an input. It is a predicate with no contract of its own.
- Atomicity and memory ordering of the spinlock exchange and of the barrier in release, real multicore interleaving, the application-processor trampoline and cross-core visibility of online flags: these are concurrency. Each is a sequential environment step between polls or exchanges.
- Spinlock.Spinlock.Acquire: a contending holder is a count of failed exchanges. A lock that is never released (acquire never returns) appears only in `HeldUntilReleased` as a run that does not complete.
- The busy-wait timing of `delay`/`smp_delay` (kernel/src/smp.cpp:65-70): only the number of polls is modelled.
- Smp.SmpManager.Init: the bootstrap core's APIC id and the availability of an APIC are parameters. The calls to the APIC driver are not repeated here.
- Smp.SmpManager.GetCPUInfo and Pci.PciManager.FindDevice: these return the record, or its index, instead of a pointer into the table. Writes through the returned pointer are not modelled.
- The PIT timer (kernel/src/timer.cpp, kernel/src/timer.c): it appears only as the callback event the handler emits.
- Kernel entry points (kernel/src/main.cpp, kernel/src/main.c), `load_kernel`, `efi_main` and the ExitBootServices retry: these are boot sequencing and firmware I/O.
- Build agents, `conanfile.py`, the userspace Qt application and the printf test harness: tooling outside the kernel.
- The font table of kernel/src/core/console.c:10-17: it is unused, because characters are drawn from their own bit pattern.
- The header's bitmap of 2097152 bytes (kernel/include/kernel/memory.h:32): the model uses the `BITMAP_SIZE` of 32768 bytes in kernel/src/memory.cpp:11.
- `PhysicalMemoryManager::init` ignores its boot information argument, and so does the model.
- `HeapAllocator::free` and `kfree` are no-ops, so they have no member.
- Memory.HeapAllocator.Alloc: heap addresses are unbounded naturals. Wrap-around of `heapCurrent + size` at the top of the 64-bit space is not modelled.
- Memory.MemCpy and Bootloader.EfiMemcpy: both require distinct buffers. Overlapping copies have no defined result in the source either.
- Memory.ToByte: the conversion to `uint8_t` has no proved integer equation. `Filled`, `MemSet` and `EfiMemset` are stated through it.
- Pci.PciManager.ProbeDevice, Pci.PciManager.ReadBars, Pci.PciManager.ScanSlot, Pci.PciManager.ScanBus, Pci.PciManager.Scan, Pci.PciManager.Init: the configuration reads made while probing are taken straight from the configuration space, and their port traffic is not recorded. The `io` trace covers single reads, writes and bus mastering.
- Console.Console.PutChar, Console.Console.Clear, Console.Console.DrawChar, Console.Console.Print, Console.Console.Println: the cursor and pixel index arithmetic uses unbounded naturals instead of `uint32_t`. All five require `Fits`: when there is a framebuffer, the width is at most the stride (`pitch / 4`), and the framebuffer holds `height` full rows of the stride. The C code assumes this geometry without checking it.
- ConsoleMock.InitScenario: the framebuffer is smaller than the stored geometry, as in the unit test. Nothing is drawn on it.
- Bootloader.GuidCompare: reflexivity and symmetry follow from the stated equivalence with equality, so they are not stated separately.
- Bootloader.PrintStatus: output is a list of strings handed to the console. Character encoding (UTF-16) is not modelled.
- The value of `EFI_ACPI_20_TABLE_GUID` comes from the UEFI Specification, because its definition is not part of this model.

## Findings

| source | as written | input that shows it | evidently intended | confidence | as-written member | corrected member |
|---|---|---|---|---|---|---|
| kernel/src/smp.cpp:89 | `startAP` polls only the slots below `cpuCount`, but `init` wrote the candidate at index `cpuCount` (kernel/src/smp.cpp:129); smp.c has the same loop | a fresh bring-up with any other core that marks its own slot at once: the poll of slot 0 alone fails, so the count stays 1 and multicore stays off | poll the slot just written too, so a core that comes online is counted | not executed | Smp.PollMissesNewSlot | Smp.SmpManager.InitCorrected |
| kernel/src/memory.cpp:98-100 | `(size + 15) & ~15` wraps to 0 for the top 15 sizes, so `alloc` succeeds with an empty block; kmalloc in kernel/src/memory.c is the same | `calloc(1, 2^64 - 1)` on an initialised heap returns a block and zeroes 2^64 - 1 bytes past it | reject sizes whose rounding overflows | not executed | Memory.CallocRoundingScenario | Memory.HeapAllocator.AllocChecked |
| kernel/src/memory.cpp:111 | `num * size` wraps modulo 2^64; kcalloc in kernel/src/memory.c is the same | `calloc(2^32, 2^32)` succeeds with an empty block | fail when the product overflows | not executed | Memory.CallocProductScenario | Memory.HeapAllocator.CallocChecked |
