# nanokrnl and nanox, modelled and proved

A Dafny model of the hardest parts of nanokrnl, an NT-like kernel, and nanox, the x86-64 emulator it runs
in, with proofs about every input, run and reachable state. `dafny verify dfyconfig.toml` checks all of it.

| files | what they model |
|---|---|
| `Bytes`, `Wrappers`, `Codec` | little-endian integers in byte memory, fixed-width fields |
| `Mmu`, `LongMode` | the four-level page walk and its permissions (Intel SDM Vol. 3A section 4.5), in numbers, and the identity map the emulator starts with |
| `PageTables`, `PageTableUpdates`, `Mapping`, `Machine` | building page tables in RAM, and that walking them is the map that was asked for |
| `BootLayout`, `Boot` | the kernel boot: image, stack, BootInfo, physical window, registers |
| `Runs`, `Dump`, `CoreFile`, `CoreNotes`, `Agreement` | the crash dump: enumerating mappings, the ELF core and its notes, its reader, and that all of them agree with the MMU |
| `Alu`, `StringOps`, `Interrupts`, `Views` | flags and condition codes, restartable string instructions, interrupt delivery against `iretq` (Intel SDM Vol. 3A section 6.14), and the page tables under them |
| `Heap`, `Seh`, `CxxUnwind`, `WidePrintf`, `PrintfEngine` | the C runtime: heap, structured exceptions, C++ unwinding, wide formatting and parsing |
| `Apic`, `Snapshot`, `Gdb` | the interrupt controller and timer, saving and restoring a machine, the debugger protocol (GDB Remote Serial Protocol, "Overview") |
| `Glob`, `KdRings` | the wildcard matcher, and the debugger's module and process lists |

Code that updates state is imperative here too: classes over arrays and fields, loops with invariants, each
method tied to a specification function or a stated property. Machine words are naturals with explicit
bounds and wrap-around; masks and shifts are division and remainder.

## Where the code does something else than it says

- A 4 KiB request in a slot that holds a 2 MiB page is written into that page's own memory and lost
  (`Mapping.MapTakesEffect` gives the exact condition, `Machine.LosesARequest` two such requests).
- The dump keeps the low frame bits of large leaves that the MMU clears, so the two differ exactly when a large
  leaf has such a bit set, as with PAT (`Dump.ViewsAgree`; `Dump.PatBitMovesLargeLeaf` is a memory with one).
- The core's program header count is cut to 16 bits, so the file reads back exactly when the count fits
  (`CoreFile.ParseRecovers`, `Agreement.CoreByte`; `CoreFile.TooManyRuns` has 65535 runs).
- `cmps` reports a fault at RSI even when only the element at RDI is refused, and the machine puts that
  address in CR2, so a handler that maps what CR2 says never gets the instruction past it
  (`StringOps.ReportedAddress`, `StringOps.CompareStuck`; `StringOps.ReportsReadable` is such a state).
- The machine ticks the timer one cycle an instruction, and a tick shorter than the divisor does nothing; the
  kernel programs a divisor of 16 (kernel/src/hal/apic.rs:88), so only the idle path fires the timer
  (`Apic.ShortTicksNeverFire`; `Apic.KernelTimerNeverFires` is the kernel's timer).
- A scope that spans the largest 32-bit number, or comes after the thirty-second, is never visited
  (`Seh.LeftOut`; `Seh.WidestScopeLeftOut` is a table with one).
- A corrupt unwind-map entry runs its own destructor once and ends the walk, so unwinding in two stages would
  run it twice (`CxxUnwind.UnwindComposes`; `CxxUnwind.LoopedEntryRunsTwice`).
- `wcstoul` knows no digit past `f`, though `_ultow` writes bases up to 36 (`WidePrintf.ReadsUltow`;
  `WidePrintf.LargeDigitLost` is 16 in base 17).
- The debugger's `g` and `G` packets carry 32 bits of RFLAGS (`Gdb.ReadThenWrite`; `Gdb.HighFlagLost` has bit 32
  set).
- A snapshot drops the bytes of RAM past its last whole page (`Snapshot.KeptIsRam`; `Snapshot.PartPageLost`).
- tools/kdbg_check.py prints the word at the start of a process as its identifier, which the kernel uses for the
  dispatcher type, so it prints 3 for every process; the identifier is at offset 0x38
  (`KdRings.ProcessesListed`; `KdRings.WrongIdentifier` pushes 4).

## Model

| member | source | states |
|---|---|---|
| Mmu.WalkLoop | emu/src/mmu.rs:137-177 | the level loop, narrowing rights as it descends, computes the recursive walk |
| Mmu.TranslateLoop | emu/src/mmu.rs:95-179 | the translation, off, refused, missing or mapped, as one pass over the levels; `LongMode.TranslateIsManual` says what it is in numbers |
| Mmu.WalkFollowsPath | emu/src/mmu.rs:128-160 | rights accumulate: the walk permits an access iff every entry on the path to the leaf allows it |
| Mmu.TranslateByPath | emu/src/mmu.rs:95-179 | a canonical address translates iff a path of present entries ends at a leaf and all of them allow the access; the P bit of the fault code tells a protection fault from a missing entry; which bits these are is `LongMode.TranslateIsManual` |
| LongMode.PathIsEntries | emu/src/mmu.rs:128-160 | the path of the walk in numbers: 512 entries of eight bytes, nine index bits a level, bit 0 present, bit 7 a leaf above the last level |
| LongMode.TranslateIsManual | emu/src/mmu.rs:95-179 | translation in numbers: itself without paging; a fault when not canonical; frame bits plus offset when bits 1, 2 and 63 of every entry allow it, so also for user code; else a fault whose code has bit 0 iff present, 1 for writes, 2 for user, 4 for fetches |
| LongMode.Identity | emu/src/machine.rs:119-128 | below 4 GiB every access of every privilege goes to its own address |
| LongMode.NothingElse | emu/src/machine.rs:115-128 | in memory that started blank every other address faults |
| LongMode.BootLongMode | emu/src/machine.rs:115-139 | the fixed tables and registers: every access and privilege below 4 GiB maps to itself, nothing else is mapped if the table frames started blank, and only those six frames change |
| PageTables.WalkTree | emu/src/mmu.rs:137-177 | in any memory holding a tree of tables, the walk ends at exactly the leaf the tree has for the address |
| PageTables.TranslateTree | emu/src/mmu.rs:95-179 | supervisor translation is the tree's lookup, unmapped canonical addresses fault with P clear, user accesses fault with P set |
| PageTableUpdates.AddTableHolds | emu/src/machine.rs:164-183 | linking a fresh zeroed frame adds exactly one empty table; bytes outside the table area are untouched |
| PageTableUpdates.SetSmallHolds | emu/src/machine.rs:198-199 | writing a 4 KiB leaf changes exactly that page of the tree |
| PageTableUpdates.SetLargeHolds | emu/src/machine.rs:194-196 | writing a 2 MiB leaf changes exactly that slot of the tree |
| Bytes.Get64Put64 | emu/src/machine.rs:108-161 | a 64-bit word is read back as it was written |
| PageTableUpdates.HoldsFrame | emu/src/machine.rs:164-183 | a write outside the table frames leaves every table as it was |
| Machine.Machine.AllocFrame | emu/src/machine.rs:164-171 | the next frame, cleared |
| Machine.Machine.EnsureTable | emu/src/machine.rs:175-183 | returns the child table, making it if absent; a large leaf in the slot is taken for a table |
| Machine.Machine.MapPage | emu/src/machine.rs:187-200 | new memory holds the tree with the page mapped, uses exactly the frames needed and changes nothing outside the tables; a 4 KiB request in a 2 MiB slot writes into the large page instead |
| Machine.Machine.MapRange | emu/src/machine.rs:202-209 | a range is the run of its single-page requests, conflicting or not: tree, frames, lost leaves and the rest of memory |
| Machine.Machine.MapRequests | emu/src/machine.rs:187-209 | the same for any list of requests one after another, on any tables |
| Machine.Machine.BuildFresh | emu/src/machine.rs:164-209 | any list of requests into fresh tables: translation of every canonical address is the last request covering it among those that take effect, one frame for each table on the paths, nothing else changes but where lost leaves fall |
| Mapping.MapTreeLookup | emu/src/machine.rs:187-200 | one request changes the lookup of exactly the addresses it covers, or of none if it conflicts |
| Mapping.MapAllLookup | emu/src/machine.rs:187-209 | after any non-conflicting requests the last mapping of each page wins |
| Mapping.RunTranslates | emu/src/machine.rs:164-209 | for every list of requests, translation computes exactly the last mapping among those that take effect, which is all of them for a list without conflicts |
| Mapping.EffectiveBuilds | emu/src/machine.rs:187-200 | the requests that take effect do not conflict and build the same tables as the whole list |
| Machine.LosesARequest | emu/src/machine.rs:187-200 | a 4 KiB request after a 2 MiB one: the address still goes into the large page, and the leaf is found in its memory |
| Mapping.MapPageTranslates | emu/src/machine.rs:187-200 | any one request, on any tables, translates the covered addresses to the target and no other address differently |
| Mapping.MapTakesEffect | emu/src/machine.rs:187-200 | the request takes effect iff it does not conflict, or the large page already maps it there |
| Mapping.TablesOfRun | emu/src/machine.rs:175-200 | exactly which tables a run creates |
| Mapping.FramesOfRun | emu/src/machine.rs:164-209 | the number of frames a run takes is the number of distinct tables on the paths of its pages |
| Mapping.RangeMapping | emu/src/machine.rs:202-209 | an aligned range maps each of its bytes at the same distance from the start |
| Mapping.LastMappingConcat | emu/src/machine.rs:202-209 | ranges compose: the later one wins |
| BootLayout.BootFrames | emu/src/machine.rs:249-260 | the requests of a boot need 10 tables besides the root and one per 2 MiB of image |
| BootLayout.BootLookup | emu/src/machine.rs:220-260 | image, stack, BootInfo, region page and physical window are mapped as intended and nothing else is |
| BootLayout.BootNonConflicting | emu/src/machine.rs:249-260 | no request of a boot falls in a slot used for a large page |
| BootLayout.UsableRegionIsFree | emu/src/machine.rs:228-273 | tables, image, stack and BootInfo lie in order below the reported usable region |
| BootLayout.BootedFrames | emu/src/machine.rs:249-260 | 11 + ceil(span / 2 MiB) table frames, all below the image at 8 MiB |
| BootLayout.BootTranslates | emu/src/machine.rs:216-295 | translation through the booted tables is the intended view, for every canonical address, access and privilege |
| Boot.SpanOf | emu/src/machine.rs:228-231 | the end of the segment that ends last: no segment ends after it, and one ends there |
| Boot.LoadSegments | emu/src/machine.rs:240-243 | byte by byte: each segment's bytes from 8 MiB plus its address on, the later over the earlier, nothing else |
| Boot.Relocate | emu/src/machine.rs:244-246 | each relocation's word is its value unless a later one overlaps it, and no other byte changes |
| Boot.BuildTables | emu/src/machine.rs:249-260 | the five groups of requests, in order |
| Boot.BootKernel | emu/src/machine.rs:216-295 | the whole boot: every segment byte and relocation word in final memory, table frames, translation of every canonical address, BootInfo, usable memory untouched, and the registers handed over in numbers |
| Boot.SpanEndIs | emu/src/machine.rs:228-232 | the largest segment end, attained, and the least whole pages over it |
| Boot.SegmentByte | emu/src/machine.rs:240-243 | a byte of a segment that no later segment covers stands at 8 MiB plus its address |
| Boot.PatchWord | emu/src/machine.rs:244-246 | a relocation that no later one overlaps reads back as its value |
| Boot.LoadedStands | emu/src/machine.rs:239-246 | memory that agrees with the loaded image holds every segment byte, every relocation word and nothing new between |
| BootLayout.LayoutInNumbers | emu/src/machine.rs:220-236 | the virtual and physical layout and the first usable byte, in numbers |
| Boot.BootViews | emu/src/machine.rs:263-267 | the control registers set drive the booted tables |
| Runs.PushDescribes | kernel/src/dump.rs:102-105 | pushing the next mapped piece keeps the runs a sorted, disjoint, maximally coalesced description |
| Runs.OneRun | kernel/src/dump.rs:98-143 | an address lies in at most one run |
| Runs.Unique | kernel/src/dump.rs:98-143 | only one list of runs describes a given map |
| Dump.WalkSearches | emu/src/mmu.rs:137-177 | the search without rights is the MMU walk without its rights |
| Dump.WalkRuns | kernel/src/dump.rs:100-143 | the four nested loops produce the sound, complete, sorted and maximally coalesced runs of the higher half |
| Dump.TranslateIsSearch | emu/src/mmu.rs:95-179 | supervisor reads translate to the leaf found |
| Dump.ViewsAgree | kernel/src/dump.rs:118-131 | the dump and the MMU agree on every higher-half address iff every large leaf has clear low frame bits |
| Dump.PatBitMovesLargeLeaf | kernel/src/dump.rs:128-131 | in a memory with a large leaf that has bit 12 set, the dump is off by 4 KiB over the whole page |
| CoreFile.KeptRuns | kernel/src/dump.rs:263-266 | the runs that start inside the captured window |
| CoreFile.WriteCore | kernel/src/dump.rs:262-334 | the file header, note header, a header for each run, notes, padding and image; field by field in `CoreFile.NoteInNumbers`, `CoreFile.LoadInNumbers` and `CoreFile.FileNotes` |
| CoreFile.ParseCore | tools/kdbg_check.py:20-36 | the reader's loop over the program headers: loads and stretches of notes |
| CoreFile.NoteInNumbers | kernel/src/dump.rs:278-305 | every field of the file header and of the note header at its offset, in numbers |
| CoreFile.LoadInNumbers | kernel/src/dump.rs:306-317 | every field of a run's header at its offset: flags 7, file range cut at 32 MiB, page alignment |
| CoreFile.FileNotes | kernel/src/dump.rs:270-334 | the notes stand at the note offset, zeros up to the next page, where the image starts |
| CoreFile.NotesFound | tools/kdbg_check.py:20-36 | the reader finds exactly one stretch of notes, the bytes written, iff the header count does not wrap to 0 |
| CoreNotes.PutNote | kernel/src/dump.rs:212-226 | one note: sizes, type, NUL-terminated name and descriptor, both padded to four |
| CoreNotes.PutNotes | kernel/src/dump.rs:237-260 | the notes one after another |
| CoreNotes.VmcoreInfo | tools/kdbg_check.py:56-71 | the reader's loop over the notes of every stretch |
| CoreNotes.NotesReadBack | tools/kdbg_check.py:56-71 | the text read is the descriptors written under names starting with VMCOREINFO, in order, whatever other notes there are |
| CoreNotes.HexReads | kernel/src/dump.rs:246-251 | a number printed in hexadecimal with its mark is read back |
| CoreNotes.FindAnchor | tools/kdbg_check.py:74-79 | the reader's loop over the lines |
| CoreNotes.AnchorReads | tools/kdbg_check.py:74-79 | the first line that starts with the key gives back the number printed there |
| CoreNotes.TextAnchors | kernel/src/dump.rs:240-252 | the same in a text of lines, the anchor and more |
| CoreNotes.WriteAndFind | tools/kdbg_check.py:20-79 | notes into a core, core to file, file to notes, notes to anchor: what the notes under the key say, unless the header count wraps to 0 |
| CoreFile.Read | tools/kdbg_check.py:38-45 | the first load around an address, if the bytes are in its file range; slices are clipped at the end of the file as in the reader |
| CoreFile.RangesInFile | kernel/src/dump.rs:262-334 | every load of a written core has its file range inside the file |
| CoreFile.RunsEncodable | kernel/src/dump.rs:267-320 | the runs of the higher half always fit the fields of their headers |
| CoreFile.ReadsRuns | tools/kdbg_check.py:38-45 | a read gives physical memory iff it lies in the captured part of one run |
| CoreFile.LostRun | kernel/src/dump.rs:267-320 | with more headers than 16 bits count, the reader has nothing at the first byte of the last run |
| CoreFile.TooManyRuns | kernel/src/dump.rs:267-320 | 65535 runs: the count is 0 and the reader sees none |
| CoreFile.ParseRecovers | kernel/src/dump.rs:267-320 | the reader recovers every load header iff the header count fits 16 bits |
| CoreFile.CoreReads | kernel/src/dump.rs:262-334 | reads inside one run's file range give physical memory; other reads give nothing |
| Agreement.RunsMatchTranslate | kernel/src/dump.rs:100-143 | an address translates iff some run covers it, and then to the run's physical address |
| Agreement.CoreByte | kernel/src/dump.rs:262-334 | reading one byte through the headers parsed from the file gives, at every higher-half address, the byte of physical memory the emulator translates it to, iff the header count fits 16 bits |
| Agreement.DumpAndRead | tools/kdbg_check.py:20-45 | walk, write, parse, read: file ranges inside the file, one byte as translated, longer reads as the run they lie in, and the notes recovered as written |
| Agreement.DumpOfRequests | kernel/src/dump.rs:100-143 | for every list of map requests, tables in memory and dumped runs are the map of those that take effect |
| Heap.FindFit | msvcrt/src/lib.rs:280-290 | the list walk stops at the first free block that is large enough |
| Heap.CHeap.constructor | msvcrt/src/lib.rs:262-269 | an empty heap |
| Heap.CHeap.Unlink | msvcrt/src/lib.rs:284-287 | the block leaves the list, in memory as in the model |
| Heap.CHeap.Carve | msvcrt/src/lib.rs:291-303 | a block from the front of the arena or of a new chunk of at least 64 KiB, with its header, and the arena after it in numbers |
| Heap.CHeap.Malloc | msvcrt/src/lib.rs:277-304 | first fit, else carve, else null with nothing changed; no payload byte of any block changes |
| Heap.CHeap.Free | msvcrt/src/lib.rs:307-316 | the block goes to the front of the free list; no payload byte changes |
| Heap.CHeap.Store | msvcrt/src/lib.rs:277-316 | a program writing inside a live block keeps the heap intact |
| Heap.CHeap.Realloc | msvcrt/src/lib.rs:329-343 | the bytes of the new block are those of the old one up to the smaller of the two sizes, the old block is freed, every other payload is untouched; on failure nothing changes |
| Heap.CHeap.LiveBlocks | msvcrt/src/lib.rs:260-343 | at every point live blocks are aligned, in memory and clear of every other block and of the arena rest |
| Heap.AllocatedIs | msvcrt/src/lib.rs:277-304 | what malloc returns is large enough, new to the live blocks, and leaves those as they were |
| Heap.WantIs | msvcrt/src/lib.rs:271-278 | sizes are rounded up to sixteen with room for the header |
| Alu.Cpu.SetZsp | emu/src/lib.rs:257-263 | ZF, SF and PF of the result at the width |
| Alu.Cpu.Apply | emu/src/lib.rs:269-309 | result, write-back and the five status flags; no other flag changes |
| Alu.AddMeans | emu/src/lib.rs:278-286 | add and adc are exact with CF as carry, and OF says the signed sum does not fit |
| Alu.SubMeans | emu/src/lib.rs:287-294 | sub, sbb and cmp are exact with CF as borrow; OF says the signed difference does not fit; SF differs from OF iff it is negative |
| Alu.WrapsAtWidth | emu/src/lib.rs:290 | two wrapping 64-bit subtractions cut to the width wrap at the width |
| Alu.LogicMeans | emu/src/lib.rs:295-297 | or, and, xor work bit by bit |
| Alu.StatusBits | emu/src/lib.rs:45-51 | the place of each status flag in RFLAGS, and which bits are the others |
| Alu.AddInNumbers | emu/src/lib.rs:278-286 | result, write-back, CF and OF of add and adc in numbers |
| Alu.SubInNumbers | emu/src/lib.rs:287-294 | the same of sub, sbb and cmp, where cmp alone writes nothing back |
| Alu.LogicInNumbers | emu/src/lib.rs:295-297 | or, and, xor: each bit of the result, CF and OF clear |
| Alu.ResultFlags | emu/src/lib.rs:257-263 | ZF iff zero, SF the top bit at the width, PF iff the low byte has an even number of ones |
| Alu.SingleFlags | emu/src/lib.rs:2824-2845 | the conditions that read one flag: O, NO, S, NS, P and NP |
| Alu.XorZero | emu/src/lib.rs:297 | xor gives zero iff the operands are equal |
| Alu.CompareDecides | emu/src/lib.rs:2824-2845 | after cmp the condition codes decide unsigned and signed order, at every width |
| Alu.AddChain | emu/src/lib.rs:278-286 | add/adc over any number of limbs is exact addition with CF as the carry out |
| Alu.AddChainSigned | emu/src/lib.rs:278-286 | OF after it says the signed sum does not fit the limbs |
| Alu.SubChain | emu/src/lib.rs:287-294 | sub/sbb over any number of limbs is exact subtraction with CF as the borrow out |
| Alu.SubChainSigned | emu/src/lib.rs:287-294 | OF and SF after it decide whether the signed difference fits and its sign |
| Alu.LongCompare | emu/src/lib.rs:2824-2845 | after a long sub/sbb, CF decides unsigned and SF against OF signed order |
| StringOps.StringUnit.LoadAt | emu/src/lib.rs:330-348 | all bytes of an element or nothing |
| StringOps.StringUnit.StoreAt | emu/src/lib.rs:349-371 | all bytes of an element or nothing |
| StringOps.StringUnit.Step | emu/src/lib.rs:2567-2629 | one element; a fault changes nothing |
| StringOps.StringUnit.Run | emu/src/lib.rs:2552-2648 | the loop with its count, repeat condition and faults |
| StringOps.LoopWithin | emu/src/lib.rs:2563-2643 | what runs before a fault is what an unfaulted run does, and that run goes on from there |
| StringOps.RestartsAreInvisible | emu/src/lib.rs:2552-2648 | any number of faults and restarts ends in the same registers, flags and memory as one unfaulted run |
| StringOps.RepTransfers | emu/src/lib.rs:2568-2590 | rep movs/stos whose elements do not run over one another, or only over sources already read: each element gets its source as it was before, no other byte changes, registers end past the last element |
| StringOps.RepTraces | emu/src/lib.rs:2568-2590 | rep movs/stos whatever overlaps: every byte of memory is that of its origin, traced back through the elements stored |
| StringOps.RepRepeats | emu/src/lib.rs:2568-2590 | rep movs up by d bytes, at least an element, fills the destination with the first d bytes of the source over and over |
| StringOps.ReportsReadable | emu/src/lib.rs:2615-2628 | a cmps whose reported address is readable |
| StringOps.RepLoads | emu/src/lib.rs:2591-2602 | rep lods leaves the last element in the low bytes of RAX |
| StringOps.MergeMeans | emu/src/lib.rs:2595-2596 | only the low bytes of RAX are replaced |
| StringOps.RepScans | emu/src/lib.rs:2603-2641 | repe/repne scas/cmps stop after the first element that ends the scan, with its flags, or after all |
| StringOps.ComparedDecides | emu/src/lib.rs:2603-2628 | the flags of a compare decide equality and both orders of the two elements |
| StringOps.StepIs | emu/src/lib.rs:2552-2566 | the registers move by the width of an element, down if DF is set, modulo 2^64 |
| StringOps.MovsOnce | emu/src/lib.rs:2568-2579 | without a prefix: one element copied, both registers past it, RCX as it was |
| StringOps.StosOnce | emu/src/lib.rs:2580-2590 | without a prefix: the low bytes of RAX stored once |
| StringOps.LodsOnce | emu/src/lib.rs:2591-2602 | without a prefix: one element into the low bytes of RAX |
| StringOps.ScasOnce | emu/src/lib.rs:2603-2614 | without a prefix: one element compared with RAX |
| StringOps.CmpsOnce | emu/src/lib.rs:2615-2628 | without a prefix: two elements compared |
| StringOps.ReportedAddress | emu/src/lib.rs:2615-2628 | a fault reports a refused address, except exactly when cmps can read the element at RSI |
| StringOps.CompareStuck | emu/src/machine.rs:367-375 | in that case letting the reported address through never lets the instruction proceed |
| Interrupts.Cpu.Push64 | emu/src/lib.rs:525-529 | RSP moves even when the store fails |
| Interrupts.Cpu.Pop64 | emu/src/lib.rs:530-534 | RSP moves only when the load succeeds |
| Interrupts.Cpu.DeliverInterrupt | emu/src/lib.rs:2771-2821 | gate, stack switch, frame, error code, IF, and the failures in between; in numbers by `Interrupts.DeliveryInNumbers` and `Interrupts.NoGate` |
| Interrupts.Cpu.IretqStep | emu/src/lib.rs:2412-2426 | five pops with their fallbacks |
| Interrupts.PushAllHolds | emu/src/lib.rs:2805-2810 | every slot of a pushed frame holds its value |
| Interrupts.PushAllSpares | emu/src/lib.rs:2805-2810 | pushing changes no word outside its slots |
| Interrupts.GateDecodes | emu/src/lib.rs:2787-2792 | a gate installed for a handler is read back as a present interrupt gate to that handler (kernel/src/ke/idt.rs:46-53, emu/src/machine.rs:143-154) |
| Interrupts.DeliverEnters | emu/src/lib.rs:2771-2821 | where a delivery arrives: handler, privilege, stack pointer, error code, IF; which words are on the stack by `Interrupts.DeliveryInNumbers` |
| Interrupts.DeliveryInNumbers | emu/src/lib.rs:2771-2821 | from the two gate words in memory: handler address, privilege, the stack (RSP0 when the privilege rises, else the interrupted one), SS, RSP, RFLAGS, CS, RIP and the error code at their addresses, IF off for an interrupt gate only |
| Interrupts.NoGate | emu/src/lib.rs:2771-2792 | a gate that cannot be read or is not present: nothing changes but the privilege, which stays 0 |
| Interrupts.IretqInNumbers | emu/src/lib.rs:2412-2426 | the readable words at RSP, in order, become RIP, privilege (the low two bits of CS), RFLAGS and RSP; what each missing word leaves |
| Interrupts.ClearIfIs | emu/src/lib.rs:2816-2819 | an interrupt gate turns IF off and no other flag |
| Interrupts.IretqResumes | emu/src/lib.rs:2412-2426 | iretq at an intact frame resumes what it saved |
| Interrupts.EventKeeps | emu/src/lib.rs:2771-2821 | every legal event keeps the live frames intact |
| Interrupts.BalancedKeeps | emu/src/lib.rs:2771-2821 | over any balanced stretch the frames below it stay as they were |
| Interrupts.Lifo | emu/src/lib.rs:2412-2426 | interrupt, any balanced stretch of nested interrupts and handler code, and the matching iretq restore RIP, RFLAGS, RSP and privilege, also across the ring 3 stack switch |
| Interrupts.NestedFits | emu/src/lib.rs:2771-2821 | on a flat stack an RSP at or under the top frame is all nesting needs |
| Views.WalkKept | emu/src/mmu.rs:137-177 | a store that meets no entry of a walk leaves the walk as it was |
| Views.BuiltApart | emu/src/machine.rs:164-200 | no walk reads a byte outside the frames the tables were given |
| Views.ViewStays | emu/src/lib.rs:2563-2643 | translating every element by the tables as they are then is the same as fixing the view at the start, when no element is stored over the tables |
| Views.DeliverKeepsView | emu/src/lib.rs:2771-2821 | a delivery whose frame is clear of the tables leaves every translation as it was, whether it succeeds or not |
| Seh.Pick | msvcrt/src/lib.rs:2071-2085 | the smallest span not done, the earliest of equals |
| Seh.Handle | msvcrt/src/lib.rs:2051-2137 | scopes are visited innermost first; filters until one accepts or dismisses; then exactly the finally blocks visited before; the unwind pass runs every finally block and no filter |
| Seh.RunFinallys | msvcrt/src/lib.rs:2118-2125 | the finally blocks among the visited scopes, in order |
| Seh.VisitsDetermined | msvcrt/src/lib.rs:2067-2093 | the visit order is determined by the table |
| Seh.FinallysOnce | msvcrt/src/lib.rs:2097-2106 | each visited finally block runs once |
| Seh.EventsCounted | msvcrt/src/lib.rs:2097-2125 | a pass gives as many filter or finally events as it visits scopes of that kind |
| Seh.EventPlace | msvcrt/src/lib.rs:2097-2125 | and the event of a visit stands at the place that counts the visits of its kind before it |
| Seh.LeftOut | msvcrt/src/lib.rs:2071-2085 | a covering scope is never visited iff it is past the thirty-second entry or spans the largest 32-bit number |
| Seh.WidestScopeLeftOut | msvcrt/src/lib.rs:2071-2085 | such a scope, and no visit |
| CxxUnwind.VisitsAreChain | msvcrt/src/lib.rs:2383-2404 | unwinding passes exactly the states on the chain above the target |
| CxxUnwind.VisitsDescend | msvcrt/src/lib.rs:2383-2404 | in strictly decreasing order |
| CxxUnwind.CleanupIs | msvcrt/src/lib.rs:2383-2404 | the destructors run are exactly those of the states on the chain above the target that have one, from the highest down |
| CxxUnwind.EndIs | msvcrt/src/lib.rs:2383-2404 | where the walk ends: on the chain, at or below the target or where the map leads no further down |
| CxxUnwind.UnwindComposes | msvcrt/src/lib.rs:2383-2404 | unwinding in two stages is unwinding at once iff no entry on the way to the first target leads up or to itself |
| CxxUnwind.LoopedEntryRunsTwice | msvcrt/src/lib.rs:2383-2404 | an entry that leads to itself runs twice in two stages |
| CxxUnwind.UnwindToState | msvcrt/src/lib.rs:2383-2404 | the destructors of the states passed, once each, and termination |
| CxxUnwind.UnwindPass | msvcrt/src/lib.rs:2326-2343 | the handler's loop is unwinding to -1 for states in the map and nothing outside |
| CxxUnwind.CurrentState | msvcrt/src/lib.rs:2315-2323 | the state of the last leading entry at or below the address |
| CxxUnwind.GreatestAtOrBelow | msvcrt/src/lib.rs:2314-2323 | in a sorted map that is the greatest such entry |
| CxxUnwind.Throw | msvcrt/src/lib.rs:2345-2378 | the first clause of the first covering block that takes a thrown type, after the destructors of the body |
| CxxUnwind.FrameHandler | msvcrt/src/lib.rs:2292-2379 | unwind and foreign exception run the destructors of a state in the map and nothing for one outside; a throw takes the first handler or searches on |
| Snapshot.Machine.Save | emu/src/machine.rs:397-447 | magic, sizes, fields, queues, and the non-zero pages with their patched count |
| Snapshot.CpuInNumbers | emu/src/machine.rs:411-424 | every register of the processor at its offset in the blob, in numbers |
| Snapshot.DevicesInNumbers | emu/src/machine.rs:400-437 | the mark, the RAM size, every queue, line register and interrupt-controller word at its offset |
| Snapshot.PageInNumbers | emu/src/machine.rs:434-446 | the index and the 4096 bytes of each page at its offset |
| Snapshot.PutPages | emu/src/machine.rs:432-446 | index and contents of each page that is not all zero |
| Snapshot.RestorePages | emu/src/machine.rs:486-493 | pages in any order on cleared RAM, the later over the earlier, up to the first outside RAM |
| Snapshot.Machine.Restore | emu/src/machine.rs:452-496 | any blob that is not cut short: succeeds iff magic and RAM size agree and every page lies in RAM, and then every field, queue and page is the blob's; without magic or size nothing changes |
| Snapshot.WrittenKept | emu/src/machine.rs:432-493 | the pages a snapshot saves, written onto cleared RAM, give what it kept of RAM |
| Snapshot.KeptIsRam | emu/src/machine.rs:432-446 | RAM survives iff the bytes past its last whole page are zero |
| Snapshot.PartPageLost | emu/src/machine.rs:432-446 | a RAM whose only byte comes back cleared |
| Snapshot.SavesTheSame | emu/src/machine.rs:397-447 | a restored machine saves the same bytes |
| Snapshot.Transplant | emu/src/machine.rs:397-496 | saving one machine and restoring another of the same size makes their captured state equal |
| Gdb.Stub.Send | emu/src/gdb.rs:389-403 | the framed body with its checksum |
| Gdb.Stub.DrainPackets | emu/src/gdb.rs:103-137 | the loop drains what can be drained |
| Gdb.Stub.OnInput | emu/src/gdb.rs:89-92 | new bytes after the old ones, then drained |
| Gdb.DrainTwice | emu/src/gdb.rs:103-137 | input in two pieces is drained as in one |
| Gdb.SplitInvariance | emu/src/gdb.rs:89-137 | any split of a stream gives the same replies, machine effects and leftover |
| Gdb.FrameReads | emu/src/gdb.rs:122-131 | the packet cut from a sent body is the body iff it has no # |
| Gdb.FrameInNumbers | emu/src/gdb.rs:389-403 | a frame is $, the body, # and two lower-case digits of the sum of the body modulo 256 |
| Gdb.OnePacket | emu/src/gdb.rs:103-137 | one frame: acknowledged unless that is off, handed on once, nothing left |
| Gdb.InterruptReply | emu/src/gdb.rs:103-137 | a control-C stops the target and is answered with T02thread:01; framed, byte for byte |
| Gdb.RegisterPlaces | emu/src/gdb.rs:232-245 | where each register stands in the reply to g |
| Gdb.FramingRecovers | emu/src/gdb.rs:389-403 | every list of #-free bodies with acknowledgements and strays between is dispatched in order |
| Gdb.DecodeHex | emu/src/gdb.rs:431-443 | pairs of digits up to the first that is not one |
| Gdb.DecodesHex | emu/src/gdb.rs:407-443 | decoding undoes hexadecimal |
| Gdb.ReadRegs | emu/src/gdb.rs:232-245 | the reply to g |
| Gdb.WriteRegs | emu/src/gdb.rs:247-259 | the effect of G, refused when too short |
| Gdb.ReadThenWrite | emu/src/gdb.rs:232-259 | writing back what was read restores every register, RFLAGS iff it fits 32 bits |
| Gdb.HighFlagLost | emu/src/gdb.rs:232-245 | bit 32 of RFLAGS is not in the packet |
| Apic.Apic.Request | emu/src/devices.rs:170-172 | the vector becomes pending |
| Apic.Apic.Ack | emu/src/devices.rs:174-176 | any vector stops being pending, delivered or not |
| Apic.Apic.HighestPending | emu/src/devices.rs:178-186 | the greatest pending vector |
| Apic.Apic.Tick | emu/src/devices.rs:190-203 | count down, reload or stop, raise |
| Apic.Apic.Expire | emu/src/devices.rs:207-212 | an armed timer fires at once |
| Apic.Apic.Service | emu/src/machine.rs:502-515 | delivers the greatest pending vector iff it outranks CR8 with IF set; a refusal with IF set means none outranks it |
| Apic.Requested | emu/src/devices.rs:170-172 | setting a bit of the four words adds one vector to the set |
| Apic.Acknowledged | emu/src/devices.rs:174-176 | clearing one removes one |
| Apic.LiveIs | emu/src/devices.rs:170-176 | over every run a vector is pending iff raised and neither delivered nor cleared since |
| Apic.DivisorIsPower | emu/src/devices.rs:120-132 | the divisor as a power of two |
| Apic.TimerBits | emu/src/devices.rs:190-224 | vector, mask and mode are bits 0-7, 16 and 17 of the timer entry, and what firing does to the counts |
| Apic.OneShotFires | emu/src/devices.rs:190-224 | a one-shot timer fires once, at tick ceil(n / d), and is then off |
| Apic.PeriodicFires | emu/src/devices.rs:190-224 | a periodic timer fires exactly floor(k / ceil(n / d)) times in k ticks |
| Apic.ShortTicksNeverFire | emu/src/machine.rs:325 | ticks leave a timer, periodic or one-shot, alone for ever iff it is not armed or they are shorter than the divisor |
| Apic.KernelTimerNeverFires | kernel/src/hal/apic.rs:88 | the timer as the kernel programs it never fires at one cycle a tick |
| PrintfEngine.Vsnwprintf | msvcrt/src/lib.rs:1372-1541 | unit by unit: the first count-1 units of the whole output, a NUL, and the rest as it was; -1 when it does not fit |
| PrintfEngine.Sink.Put | msvcrt/src/lib.rs:1378-1384 | stores while there is room and always counts |
| PrintfEngine.ParseSpec | msvcrt/src/lib.rs:1403-1437 | flags, width, precision, length modifiers |
| PrintfEngine.Print | msvcrt/src/lib.rs:1438-1530 | the text of each conversion |
| PrintfEngine.ToDigits | msvcrt/src/lib.rs:1445-1455 | digits from the end of a twenty-unit buffer, which is always large enough |
| PrintfEngine.Ultow | msvcrt/src/lib.rs:538-560 | the digits and a NUL, nothing for a bad radix |
| PrintfEngine.ParseInt | msvcrt/src/lib.rs:1112-1158 | blanks, sign, prefix, digits; the end position is that of the first unit that is no digit of the base |
| PrintfEngine.ReadsWidth | msvcrt/src/lib.rs:1416-1419 | a decimal width is read as its number |
| PrintfEngine.PlainText | msvcrt/src/lib.rs:1391-1398 | text without a percent sign prints as it is |
| PrintfEngine.SpecOfItem | msvcrt/src/lib.rs:1403-1437 | every flag, width, precision, length and letter as written is what the parser finds |
| PrintfEngine.FormatPrints | msvcrt/src/lib.rs:1372-1541 | every format of literals and conversions prints its pieces in order, each conversion with its own argument |
| PrintfEngine.StringText | msvcrt/src/lib.rs:1503-1524 | %s prints its string and %% a percent sign |
| PrintfEngine.WidenedIs | msvcrt/src/lib.rs:1503-1512 | a narrow string is printed character for character |
| PrintfEngine.PrintedThenParsed | msvcrt/src/lib.rs:1372-1541 | a number formatted by %d, %u, %x or %X, with any width or none, zero-padded or not, is read back |
| PrintfEngine.PrintThenParse | msvcrt/src/lib.rs:1372-1541 | the same through the buffer: if text and NUL fit, the units before the NUL parse back to the number, and if not the result is -1 |
| WidePrintf.ReadsSigned | msvcrt/src/lib.rs:1112-1158 | wcstol undoes %d |
| WidePrintf.ReadsUnsigned | msvcrt/src/lib.rs:1112-1158 | wcstoul undoes %u and %x |
| WidePrintf.DigitsNumeral | msvcrt/src/lib.rs:1445-1455 | the digits of a number are its numeral in the base: worth the number, no leading zero |
| WidePrintf.SignedLayout | msvcrt/src/lib.rs:1439-1475 | %d: sign and numeral, padded to the larger of width and length with blanks in front or zeros after the sign |
| WidePrintf.UnsignedLayout | msvcrt/src/lib.rs:1476-1500 | %u, %x, %X: the same without a sign |
| WidePrintf.AsI32Is | msvcrt/src/lib.rs:1439-1440 | the argument of %d is its low 32 bits as a signed number |
| WidePrintf.ParseInNumbers | msvcrt/src/lib.rs:1112-1158 | blanks and tabs, a sign, a mark 0x, digits in either case, and any rest parse to the amount of the digits in the base asked for or found |
| WidePrintf.ReadsUltow | msvcrt/src/lib.rs:538-560 | wcstoul undoes _ultow up to base 16, and above it iff no digit exceeds f |
| WidePrintf.LargeDigitLost | msvcrt/src/lib.rs:1112-1158 | 16 in base 17 reads back as nothing |
| Glob.Accepts | kernel/src/syscalls.rs:390-411 | accepts exactly the names of the pattern's language, and terminates |
| Glob.HostGlob | kernel/src/syscalls.rs:389-413 | an empty pattern accepts everything |
| Glob.MatchesStep | kernel/src/syscalls.rs:386-388 | the language read from the front of a pattern |
| Glob.LiteralMatches | kernel/src/syscalls.rs:389-413 | a pattern without wildcards matches exactly the names that differ from it in the case of A to Z only |
| Glob.QueriesCount | kernel/src/syscalls.rs:389-413 | a pattern of question marks matches exactly the names of its length |
| Glob.StarBetween | kernel/src/syscalls.rs:389-413 | a star between two texts matches the names that start with the one and end with the other without overlap |
| Glob.StarsCollapse | kernel/src/syscalls.rs:386-388 | repeated stars are one star |
| Glob.CaseIgnored | kernel/src/syscalls.rs:386-388 | ASCII case never changes the answer |
| KdRings.Kd.Begin | kernel/src/kd.rs:504-511 | nothing published, the kernel base at its default |
| KdRings.Kd.PushModule | kernel/src/kd.rs:515-541 | the first sixteen modules with base, size and name, the first one setting the kernel base |
| KdRings.Kd.PushProcess | kernel/src/kd.rs:544-563 | the first sixteen processes with identifier, page-table root, environment block and image name |
| KdRings.Kd.Link | kernel/src/kd.rs:571-594 | entries linked both ways and closed by the head |
| KdRings.Kd.Commit | kernel/src/kd.rs:567-690 | both rings, every header stamped, contents as pushed; the type table, the process variables and the data block lead to them |
| KdRings.RingWalks | tools/kdbg_check.py:117-142 | Flink visits the entries in order and Blink in reverse, back to the head |
| KdRings.ListWalk | tools/kdbg_check.py:117-142 | the debugger's bounded walk |
| KdRings.StampDecodes | kernel/src/kd.rs:652-658 | every header decodes to the process type at any address and cookie |
| KdRings.StampBits | kernel/src/kd.rs:652-658 | stamp and decoding bit by bit: the type index, the second byte of the address and the cookie |
| KdRings.ModulesListed | tools/kdbg_check.py:115-127 | the module walk lists the first sixteen pushed with base, size and name, and backwards in reverse |
| KdRings.ProcessesListed | tools/kdbg_check.py:129-142 | the process walk lists the first sixteen with page-table root and image name, their headers decode to the slot of the process type, and the identifier printed is 3 whatever was pushed |
| KdRings.NameReads | tools/kdbg_check.py:82-87 | both counted strings of an entry read as the first 31 characters pushed, each followed by a zero byte, with room for a NUL |
| KdRings.PublishAndList | tools/kdbg_check.py:95-142 | from begin to the printed lists: a debugger that starts at the data block finds its links, tag, kernel base and heads in numbers, the first sixteen of both lists as pushed, and the process variables and type slot |
| KdRings.WrongIdentifier | tools/kdbg_check.py:129-142 | a process pushed with identifier 4 is printed with 3 |

## Left out

- The rest of the instruction set: SSE and floating point, CPUID, MSRs, segment loads, far transfers, 16-bit corner forms. It is case by case.
- Parsing of ELF, PE and BootInfo: segments, relocations and the two BootInfo buffers are given as values.
- Device memory: string instructions and interrupt frames in the model never touch the APIC or 9P windows, and code that overwrites itself or its page tables is not followed (`Views` says when the tables are safe).
- Interrupt stack table entries, which the emulator ignores too, and gates to a ring other than 0.
- What one debugger packet does to the machine, other than the register packets: it is a parameter of the stub.
- The 9P transport, the masquerade PE bytes and the register capture of the crash dump.
- The ring and contents of the two object types, the two pointers in the tail of the debugger data block, and the processor state published beside it.
- The catch object copied by `take_catch`, and raw control transfer (`longjmp`, `_local_unwind`).
- `calloc`, and heap sizes near 2^64 whose rounding overflows.
- The 9P queues and `pf_code`, which a snapshot does not capture.
- The browser front end, the host bridges and the kernel's self-tests.
- Heap.CHeap.Malloc: the system's answer for a new chunk is a parameter, null or memory that is clear of every block.
- Heap.CHeap.Store: a program that writes outside its live blocks is not modelled.
- Machine.Machine.MapRange: the tables fit in RAM, and a lost leaf falls in RAM and not on the tables themselves.
- Machine.Machine.MapRequests: as MapRange.
- Machine.Machine.BuildFresh: as MapRange.
- Boot.BootKernel: an image that is not empty and ends below the stack, 1 GiB above its start, and RAM of at most 4 GiB that holds everything built.
- CoreFile.ParseRecovers: run addresses and sizes fit 64 bits, as `CoreFile.RunsEncodable` shows of every dump.
- Agreement.DumpAndRead: the table frames lie in RAM and large leaves have clear low frame bits, without which the dump itself differs (`Dump.ViewsAgree`); at most 2^32 bytes of notes.
- PrintfEngine.Vsnwprintf: running out of arguments is not modelled, they are a function of the position; an output of 2^31 units or more wraps in the result as in the source.
- PrintfEngine.ParseInt: numbers of more than 63 bits, which overflow the source's accumulator, are exact here.
- PrintfEngine.Ultow: a buffer of at least 33 units, which the source takes for granted.
- Snapshot.Machine.Restore: a blob with the right first four bytes that is cut short is not modelled; the source panics on it.
- CxxUnwind.FrameHandler: a state in which a throw is caught lies in the unwind map, which the source then reads unchecked.
- CxxUnwind.Throw: the same.
- CxxUnwind.UnwindToState: the starting state lies in the unwind map.
- Interrupts.Lifo: a handler leaves the live frames alone, pops its error code, and returns with RSP at its frame; privilege levels are 0 and 3, for which the selectors used round-trip.
- StringOps.RepRepeats: a copy up by less than an element has no such simple form; `StringOps.RepTraces` covers it.
- KdRings.Kd.Commit: the words it writes are distinct and clear of the lists, as statics are; the header stamps are a loop of their own before the process ring is linked; in the source one loop does both.
- CoreNotes.FindAnchor: a line whose value is not hexadecimal digits after an optional 0x reads as no anchor here; the source's reader also takes signs, blanks and underscores, which the kernel never writes.
- Alu.Cpu.Apply: AF, which the source never sets, is not modelled.
