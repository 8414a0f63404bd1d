# Verified models of the kernel and of its boot loader

This project models, in Dafny, the parts of the kernel and of the Limine 8.4.0 boot loader and
installer whose correctness is hard to see from the code: the page-table builder, the installer's undo
log, the kernel heap, the boot-time memory map and its allocator, the scheduler, the FAT32 driver, the TCP receive
path, the terminal's scrollback and the BLAKE2b block driver. Each operation is a method on the same
mutable state as in the C code; each is proved against a specification that does not mention how it is
computed, and the specifications carry the properties that span operations.

| file | models | main results |
|---|---|---|
| `PageTables.dfy` | `limine-8.4.0/common/mm/vmm.c` | mapping one page changes the translation of exactly that page, also when a large page is split; a greedy mapping equals mapping 4 KiB pages one by one |
| `UndoLog.dfy` | `limine-8.4.0/host/limine.c` | an installation either succeeds with a log that undoes it or leaves every byte of the device as it was; installing, storing the log and uninstalling from its file gives the device back exactly when no write was empty |
| `KernelHeap.dfy` | `src/kernel/memory.c` | the blocks always tile the heap, over whole runs every byte a program holds reads as it last stored it, wherever `realloc` has moved it, the counters drift by at most a header for each growth in place, and freeing everything gives back the initial block |
| `MemoryMap.dfy` | `limine-8.4.0/common/mm/pmm.s2.c`, `pmm.c` | carving changes the type of exactly one range; the allocator takes the highest range that fits and has none only when none fits; over every run live allocations never meet; counting overlaps equals pointwise coverage |
| `Scheduler.dfy` | `src/kernel/task.c` | every reachable state is sound on every processor, and no waiting task is passed over for more than 64 picks; over every run a task sleeps until the first tick at or after its time and no longer; with the code's own locking, exactly which interrupts break this |
| `FatNames.dfy` | `src/services/fs.c` | the short form byte by byte and which names survive it; long names come back from their slots |
| `FatVolume.dfy` | `src/services/fs.c` | all copies of the table stay equal; clusters stay divided into free ones and disjoint chains that end |
| `FatEntries.dfy` | `src/services/fs.c` | which entry a name finds, what creating, rewriting and deleting an entry do to every other name, and exactly when the driver's two searches find it |
| `FatData.dfy`, `FatDirectory.dfy`, `FatFiles.dfy`, `FatRemoval.dfy` | `src/services/fs.c` | when a write succeeds, from the clusters that are free; what is written is what is read, an append adds to what was there, a deletion frees exactly the file, and every other file is untouched, also when a write fails |
| `FatTree.dfy`, `FatLongNames.dfy` | `src/services/fs.c` | directories made by `fs_mkdir` meet all that the file operations ask for; a new file under a long name is lost |
| `FatRun.dfy` | `src/services/fs.c` | over every run of writes, appends and deletions a directory is a map from names to bytes |
| `TcpReceive.dfy` | `src/services/net.c` | whatever the network does, the buffer is a prefix of the peer's stream, acknowledgements before a FIN name exactly what is held, and when the FIN's own does; every segment sent tells the truth about what the program sent, and when the unacknowledged is sent again |
| `TerminalRing.dfy` | `src/ui/terminal.c` | the ring refines an unbounded log of lines; a scrolled-back view does not move under output |
| `Blake2b.dfy` | `limine-8.4.0/common/crypt/blake2b.c` | the one-shot hash is the block fold of section 3.3 of RFC 7693; when updates compose |
| `Arith.dfy`, `Basics.dfy` | — | division and remainder facts, bytes, optional values |

## What the code does where it and its purpose differ

Some natural expectations do not hold of the code as it stands. The models keep the code's behaviour. For
each, the condition under which the expectation holds is proved in both directions, and a member at a
concrete input or at the end of a concrete run shows it failing.

- Rounding a heap request up to eight bytes wraps to zero for the last seven word values, and only for
  those (`KernelHeap.RoundUpCovers`). A block is handed out for such a request
  (`KernelHeap.WrappedRequest`), and `calloc` then clears past the end of the heap, exactly in those cases
  (`KernelHeap.Heap.Calloc`).
- The boot allocator reserves a size rounded up to the alignment but frees one rounded up to a page; the
  freed part stays inside the reserved one for every size exactly when the alignment is a multiple of a
  page (`MemoryMap.FreeStaysInside`). The other ranges stay safe exactly when the freed pages meet none of
  them (`MemoryMap.FreeSafeExactly`); in `MemoryMap.OverfreeReached` two allocations and a free make memory
  that is still held usable.
- Overlaying a range of the memory map looks for one entry that holds it. A range that is all of the type asked
  for is refused exactly when an entry begins inside it (`MemoryMap.HoldsTyped`, failing in
  `MemoryMap.ReservedApart`), which never happens in a tidy map for the two types that are merged
  (`MemoryMap.MergedIsWhole`).
- `task_sleep` and the end of a task release the scheduler lock before they yield. Over every run of the
  machine with that locking, each task stays on one processor with its slot and stack exactly as long as no
  other processor's interrupt comes in such a gap after an exit, or after a sleep whose task is due, may run
  there and is the first one wanted (`Scheduler.RealRunExactly`, `Scheduler.SleepRaceExactly`,
  `Scheduler.ExitRace`). A yield may miss the lock, so that the task goes on and sleeps or ends again in its gap. `Scheduler.SleepRace` is a run that makes one task current twice. The results on
  `Inv`, fairness among them, take the sleep or the exit and its yield as one step.
- `blake2b_update` goes on by what was free in the buffer instead of by a block. It takes in its whole
  input exactly when the buffer was empty or the input ends within a block of where the buffer fills up
  (`Blake2b.Hasher.Update`, failing in `Blake2b.SplitMessage`), and it does not end when the buffer was full
  and more than a block is given (`Blake2b.LoopEnds`).
- Storing an undo log stops with an error at the first empty piece, and the file left behind cannot be
  loaded (`UndoLog.StoreLoadRoundTrip`, failing in `UndoLog.EmptyPieceLost`). The installer does not look at
  that error, so an installation can be undone from its file exactly when none of its writes was empty
  (`UndoLog.InstallThenUninstall`).
- Loading such a file puts its pieces in a table of 256 and does not check their number. It writes past the
  table exactly when the file goes on after 256 whole pieces (`UndoLog.LoadLog`, failing in
  `UndoLog.TooManyPieces`); a file stored by the installer never does (`UndoLog.StoredFits`).
- A FIN is taken wherever it stands in the stream. Its acknowledgement names the FIN, and all before it is
  held, exactly when the segment starts where the buffer ends and fits whole, or ends where the buffer ends
  (`TcpReceive.FinTakenExactly`). In `TcpReceive.FullBufferFin` a full buffer makes the acknowledgement name a
  byte that is not held.
- Only the segment sent last is kept for sending again, an acknowledgement among them. When an answer is late,
  what is waited for is sent again exactly when that segment took up a number (`TcpReceive.Connection.Poll`,
  failing in `TcpReceive.ForgottenByte`).
- Acknowledgement numbers are compared without regard to wrapping. The waiting ends exactly when all is
  acknowledged or when the numbers start again at zero in between (`TcpReceive.AckExactly`, failing in
  `TcpReceive.AckWrapped`).
- A backspace takes back a character exactly when that character did not end its line
  (`TerminalRing.BackspaceUndoes`, failing in `TerminalRing.BackspaceAtTheEnd`), and a copied line is pasted
  as itself exactly when it ends in a blank (`TerminalRing.PasteLine`, failing in
  `TerminalRing.PasteOfFullLine`).
- A name survives the 8.3 form exactly when it has at most eight characters before its first dot, no
  blank, and one to three characters after the dot if it has one (`FatNames.ShortRoundTrip`, failing in
  `FatNames.DotLost`).
- The entry of a new file whose 8.3 name begins with the byte E5 reads as deleted. The write succeeds and
  takes its clusters, and no file is there afterwards; for every other 8.3 name the file is found
  (`FatFiles.WriteFile`, failing in `FatTree.LostFile`).
- A file without clusters takes one more than its data needs, since the first is not counted
  (`FatData.Allocate`); `FatTree.FirstFile` says what that means for the first file on an empty volume.
- The search of `fat_delete_entry` forgets the long name at the start of a cluster. It comes to the entry
  that lookup finds exactly when the first entry that goes by the name with its whole or with its cut long
  name goes by it with both (`FatEntries.SearchesAgree`, failing in `FatEntries.CrossedNameStays`). It
  remembers at most twenty slots of the long name; the directory is in order afterwards exactly when the
  whole long name stood in the entry's cluster and was remembered (`FatRemoval.DeleteFile`,
  `FatEntries.DeletedTidy`).
- A search copies each long name it meets to a buffer of 64 bytes. It overruns exactly when it comes to an
  entry with a long name of 64 bytes or more, whatever name is looked for (`FatEntries.SeekExactly`,
  `FatDirectory.FindEntry`, `FatDirectory.FindToDelete`, failing in `FatEntries.LongNeighbour`). The results on
  files are about directories without such a name, and the operations keep them so.
- `fat_create_entry` gives back the place of the first slot of a long name instead of the entry's. A new file
  is found again after it is written exactly when its name has the 8.3 form and does not begin with the byte
  E5: a name that needs the long form is found once it is created (`FatLongNames.LongCreatedFound`) and not
  once it is written (`FatLongNames.LongNameLost`, failing in `FatLongNames.NineLetters`).

## Assumptions

- Machine words are written out where they matter (heap sizes, sequence numbers, the hash counter, the sizes a file write
  computes); elsewhere numbers are unbounded. Page-table entries are records of their fields.
- Disk and device operations succeed. A short device read is modelled in `UndoLog`.
- Page tables are allocated at addresses that hold no table yet.
- The firmware's memory map starts with disjoint entries of positive length.
- Scheduler: local APIC identifiers are distinct; a processor takes scheduling interrupts only once it has been started; idle tasks neither sleep nor
  end; the check of the saved frame passes.
- TCP: the peer's own segments are truthful and its stream offsets are below 2^32; everybody else may send anything.
- The installer's device is smaller than 2^64 bytes, and so are the positions it is asked to write at.
- FAT: the volume has 512-byte sectors and at least one table, as `fs_init` and the format require;
  after a zero slot of a directory there are only zero slots and directories whose names are found before it,
  as `fs_mkdir` leaves them by writing `.` and `..` to every sector (`FatTree.DottedOrder`); no long-name slot is left without its entry, no long name has 64 bytes or more, and
  files of a directory do not share clusters.
- The compression function of BLAKE2b is a parameter.

## Model

| member | source | states |
|---|---|---|
| `PageTables.Vmm.constructor` | limine-8.4.0/common/mm/vmm.c:65-70 | a new page map has 4 or 5 levels and translates no address |
| `PageTables.WalkFromDescent` | limine-8.4.0/common/mm/vmm.c:526-527 | following table links loses nothing: the hardware walk from the top gives what it gives from the table reached |
| `PageTables.InstallLeaf` | limine-8.4.0/common/mm/vmm.c:134-161 | writing a page entry at its level maps exactly that page, with its rights, and no other address |
| `PageTables.InstallTable` | limine-8.4.0/common/mm/vmm.c:551-563 | replacing an absent entry or a large page by an empty table unmaps exactly that region |
| `PageTables.LargeIsOnePage` | limine-8.4.0/common/mm/vmm.c:544-549 | the entry about to be split accounts for the translation of its whole region, at an aligned address |
| `PageTables.SplitStep` | limine-8.4.0/common/mm/vmm.c:555-558 | each smaller page put in place moves the boundary of the recreated region by exactly its size |
| `PageTables.Vmm.GetNextLevel` | limine-8.4.0/common/mm/vmm.c:521-567 | the next table is reached with the translation of every address outside the requested page unchanged, in the three cases of a link, a large page and an absent entry |
| `PageTables.Vmm.Rebuild` | limine-8.4.0/common/mm/vmm.c:555-558 | a split large page translates as before, by smaller pages |
| `PageTables.Vmm.MapPage` | limine-8.4.0/common/mm/vmm.c:90-162 | for every well-formed tree: the page translates to its target with its rights, every other address as before, and the recursion through splitting ends; the page is one entry at its level, except that a 1 GiB page without hardware support is not, and no table then holds such an entry |
| `PageTables.Vmm.MapGigabyte` | limine-8.4.0/common/mm/vmm.c:134-145 | one entry of 1 GiB exactly when the processor has such pages |
| `PageTables.LeafReached` | limine-8.4.0/common/mm/vmm.c:136-161 | the entry written is the one the walk comes to |
| `PageTables.Vmm.EmulateGigabytePage` | limine-8.4.0/common/mm/vmm.c:135-141 | without hardware support the 512 smaller pages give the same translation as the large one |
| `PageTables.LargestFit` | limine-8.4.0/common/mm/vmm.c:33-43 | the size chosen fits both alignments and the rest of the request, and no larger one does |
| `PageTables.LargeIsManySmall` | limine-8.4.0/common/mm/vmm.c:33-44 | one large page is the same translation as its 4 KiB pages in turn |
| `PageTables.Vmm.MapPages` | limine-8.4.0/common/mm/vmm.c:27-46 | refused exactly when misaligned; otherwise the result translates as if every 4 KiB page had been mapped one by one |
| `PageTables.OneByOneClosed` | limine-8.4.0/common/mm/vmm.c:32-45 | mapping page by page translates exactly the addresses less than the length beyond the start, modulo the address space |
| `PageTables.CoversExactly` | limine-8.4.0/common/mm/vmm.c:27-46 | a request no longer than the address space translates its own range to the target and leaves all else |
| `PageTables.PageSizes` | limine-8.4.0/common/mm/vmm.c:92-96 | the levels are pages of 4 KiB, 2 MiB and 1 GiB under 48- and 57-bit address spaces |
| `UndoLog.Device.constructor` | limine-8.4.0/host/limine.c:232-259 | an empty cache shows the device as it is |
| `UndoLog.Device.FlushCache` | limine-8.4.0/host/limine.c:265-284 | the device becomes what the cache made it look like, and looks no different |
| `UndoLog.Device.CacheBlock` | limine-8.4.0/host/limine.c:286-311 | succeeds exactly for blocks wholly on the device, and does not change what the device looks like; a dirty block is written out first |
| `UndoLog.Device.Read` | limine-8.4.0/host/limine.c:426-446 | gives the bytes the device looks like having, across blocks, exactly when every block read exists |
| `UndoLog.Device.WriteThrough` | limine-8.4.0/host/limine.c:473-491 | patches exactly the range written; every byte of the device itself is still from before or from an earlier write |
| `UndoLog.Device.Save` | limine-8.4.0/host/limine.c:458-471 | saving the old bytes succeeds exactly when they can be read, and leaves the log good for the device even when it fails |
| `UndoLog.Device.Write` | limine-8.4.0/host/limine.c:448-497 | succeeds exactly while the log has room and the range exists, logs the old bytes of exactly that range, and keeps the device repairable by the log in every case |
| `UndoLog.SaveThenWrite` | limine-8.4.0/host/limine.c:458-491 | saving before writing keeps the oldest saved value of each byte equal to its original value |
| `UndoLog.OldestWins` | limine-8.4.0/host/limine.c:327-333 | a log written back in reverse puts in each byte the oldest value saved for it |
| `UndoLog.RollbackRestores` | limine-8.4.0/host/limine.c:499-549 | any device that differs from the original only where bytes were saved is restored by the reversed log |
| `UndoLog.LoggedWrite` | limine-8.4.0/host/limine.c:448-497 | whichever part of a write reached the device, the log still repairs it |
| `UndoLog.Device.ReverseLog` | limine-8.4.0/host/limine.c:327-333 | the log in place becomes its reversal |
| `UndoLog.Device.Uninstall` | limine-8.4.0/host/limine.c:499-549 | whatever the cache holds, the device ends as the log written back in order, flushed |
| `UndoLog.Device.Rollback` | limine-8.4.0/host/limine.c:1062-1067 | from every state a failing installation can reach, every byte returns to its original value |
| `UndoLog.Device.ServeAll` | limine-8.4.0/host/limine.c:581-1060 | any run of reads and writes that completes makes the device look like the writes in order; one that fails leaves it repairable |
| `UndoLog.Device.Install` | limine-8.4.0/host/limine.c:1046-1070 | success exactly when every request can be served, and then a log of exactly the writes, last first, that uninstalling can write back to give the original bytes; failure leaves the device bit for bit as it was |
| `UndoLog.StoreLoadRoundTrip` | limine-8.4.0/host/limine.c:341-424 | storing succeeds exactly when no piece is empty; then the file reads back as the same log, and otherwise what was written of it cannot be loaded |
| `UndoLog.StoreLog` | limine-8.4.0/host/limine.c:341-379 | succeeds exactly when no piece is empty; the file then is the number of pieces in eight bytes and, one after the other, the location, the length and the data of each, and nothing more |
| `UndoLog.LoadLog` | limine-8.4.0/host/limine.c:381-424 | the log whose count and pieces, none empty, stand in the file in that order, and none when there is no such log; past the table of 256 pieces exactly when the file goes on after so many |
| `UndoLog.ReadExactly` | limine-8.4.0/host/limine.c:392-411 | a file reads as a log exactly when it has its count, and at the place of each piece its location, its length and its data |
| `UndoLog.StoredLaid` | limine-8.4.0/host/limine.c:352-366 | what is stored is laid out so, up to the last byte |
| `UndoLog.OnePieceFile` | limine-8.4.0/host/limine.c:352-366 | the bytes of the file of one piece at 440, the lowest byte of each number first |
| `UndoLog.TooManyPieces` | limine-8.4.0/host/limine.c:396-411 | a well-formed file of 257 pieces is read past the table |
| `UndoLog.StoredFits` | limine-8.4.0/host/limine.c:341-379 | a stored log never is |
| `UndoLog.EmptyPieceLost` | limine-8.4.0/host/limine.c:356-366 | a log with one empty piece is not stored and not loaded |
| `UndoLog.InstallThenUninstall` | limine-8.4.0/host/limine.c:645-1070 | installing, storing, reopening, loading and uninstalling: a failed installation leaves the bytes; a finished one is undone exactly when none of its writes was empty, and otherwise stays |
| `KernelHeap.Heap.constructor` | src/kernel/memory.c:109-115 | one free block over the whole heap |
| `KernelHeap.Heap.Coalesce` | src/kernel/memory.c:186-197 | afterwards no two free blocks are adjacent; the allocated blocks and their bytes are as before |
| `KernelHeap.Heap.FindBest` | src/kernel/memory.c:204-214 | the smallest free block that is large enough, the first of those, or none exactly when there is none |
| `KernelHeap.Heap.SplitOff` | src/kernel/memory.c:216-226 | a block cut in two still tiles the heap; no byte outside it and none of the kept part changes |
| `KernelHeap.RoundUpCovers` | src/kernel/memory.c:202 | rounding covers the request except in the last seven word values, where it gives nothing |
| `KernelHeap.Heap.Malloc` | src/kernel/memory.c:199-232 | nothing exactly when no free block fits; otherwise the best fit, with every live payload untouched and the counters exact |
| `KernelHeap.Heap.Hand` | src/kernel/memory.c:199-232 | the same on the set of allocated blocks: exactly one new block of at least the rounded size joins it, and the counter grows by that block |
| `KernelHeap.Heap.Free` | src/kernel/memory.c:294-301 | exactly that block stops being allocated, free neighbours are joined, every other payload is untouched |
| `KernelHeap.Heap.MemCopy` | src/kernel/memory.c:42-63 | bytes, then words, then bytes copy the same as one by one |
| `KernelHeap.Heap.MemMove` | src/kernel/memory.c:65-77 | for any overlap the target gets the source's old bytes |
| `KernelHeap.Heap.Calloc` | src/kernel/memory.c:234-241 | for all counts and sizes: a block of zeros, or nothing also when the product does not fit a word; clearing runs past the heap exactly for the last seven products when any block is free; live payloads untouched |
| `KernelHeap.Heap.Shrink` | src/kernel/memory.c:253-266 | keeps the first bytes in place, returns the rest to the free blocks and counts it |
| `KernelHeap.Heap.Grow` | src/kernel/memory.c:268-285 | takes in the next block and gives back the rest, all old bytes in place; the unsplit rest goes uncounted |
| `KernelHeap.SlackBound` | src/kernel/memory.c:271-283 | that uncounted rest is at most a header's worth |
| `KernelHeap.Heap.Move` | src/kernel/memory.c:287-291 | the bytes are in a new block, the old one is free, no other payload changes; on failure nothing changes |
| `KernelHeap.Heap.Realloc` | src/kernel/memory.c:243-292 | for all pointers and sizes: the first bytes up to the smaller size are kept in all three ways; the pointer stays the same exactly when the block is large enough or becomes so with the free block behind it; failure changes nothing; the counters and the uncounted rest change by exactly what each way gives |
| `KernelHeap.TilesDisjoint` | src/kernel/memory.c:199-232 | different blocks do not overlap |
| `KernelHeap.Canonical` | src/kernel/memory.c:186-197 | the allocated blocks determine the whole list |
| `KernelHeap.AllFree` | src/kernel/memory.c:186-197 | with nothing allocated the list is the single initial block |
| `KernelHeap.Heap.MallocThenFree` | src/kernel/memory.c:199-301 | taking a block and giving it back restores the list exactly |
| `KernelHeap.Heap.EverythingFreed` | src/kernel/memory.c:294-301 | once everything is freed there is one block, and the counters differ by exactly the uncounted rests |
| `KernelHeap.Heap.Run` | src/kernel/memory.c:199-301 | over every run of the four operations and of the program's own stores each result is right for the state it was given in, the heap stays tiled and coalesced, the counters drift by at most a header for each growth in place, and with everything freed it is the initial block |
| `KernelHeap.Heap.Serve` | src/kernel/memory.c:199-301 | one call or store by a program that uses only what it holds: the answer as a relation between the states before and after |
| `KernelHeap.SlackOverRun` | src/kernel/memory.c:268-285 | over a run the uncounted rests add up to at most a header for each growth in place |
| `KernelHeap.UntouchedOverRun` | src/kernel/memory.c:199-301 | over a run a block that no call names stays allocated with its bytes |
| `KernelHeap.StoredOverRun` | src/kernel/memory.c:199-301 | over a run every byte the program still holds reads as last stored, wherever resizing has moved it |
| `KernelHeap.WrappedRequest` | src/kernel/memory.c:199-232 | a request for all of memory but one byte is answered with a small block |
| `MemoryMap.MemMap.NewEntry` | limine-8.4.0/common/mm/pmm.s2.c:657-724 | the loop that appends and swap-removes ends with exactly the range carved out of every entry and given its type; disjoint maps stay disjoint; it fails only with a full list, and the list never grows past its limit |
| `MemoryMap.TrimInside` | limine-8.4.0/common/mm/pmm.s2.c:101-122 | trimming leaves exactly the whole pages of an entry |
| `MemoryMap.MemMap.CutBack` | limine-8.4.0/common/mm/pmm.s2.c:131-160 | what is left of an overlapping entry no other begins or ends in, what is gone others have, and an entry that overlaps none is left alone; a panic only when another lies inside it |
| `MemoryMap.MemMap.TrimUsable` | limine-8.4.0/common/mm/pmm.s2.c:127-170 | on a disjoint map every address keeps its type except the ends of usable entries that are not whole pages |
| `MemoryMap.MemMap.DropFirstPage` | limine-8.4.0/common/mm/pmm.s2.c:172-194 | removes empty usable entries and at most the first page of usable memory, whatever order the removal leaves |
| `MemoryMap.MemMap.Sort` | limine-8.4.0/common/mm/pmm.s2.c:196-209 | ordered by base, with the same types at every address |
| `MemoryMap.MemMap.Merge` | limine-8.4.0/common/mm/pmm.s2.c:211-228 | no neighbours left that could be joined, with the same types at every address |
| `MemoryMap.MemMap.Sanitise` | limine-8.4.0/common/mm/pmm.s2.c:124-231 | succeeds exactly when some entry survives, and then the map is disjoint, sorted, merged and unchanged but for trimming and the first page |
| `MemoryMap.MemMap.AllocRange` | limine-8.4.0/common/mm/pmm.s2.c:726-771 | for all arguments: simulation changes nothing; when an address of the range lacks the type to overlay, nothing changes and the stated failure is given; in a tidy map a range that is all of that type is taken if the type is one that is merged; then exactly the range changes type |
| `MemoryMap.HoldsTyped` | limine-8.4.0/common/mm/pmm.s2.c:739-746 | an entry of the type to overlay holds the range exactly when all of it has that type and no entry begins inside it |
| `MemoryMap.HoldsAny` | limine-8.4.0/common/mm/pmm.s2.c:739-746 | without a type to overlay, exactly when all of it has one type |
| `MemoryMap.MergedIsWhole` | limine-8.4.0/common/mm/pmm.s2.c:211-228 | in a tidy map no entry begins inside a range of a type that is merged |
| `MemoryMap.ReservedApart` | limine-8.4.0/common/mm/pmm.s2.c:211-228 | two reserved entries that touch are not, so the range across them is refused |
| `MemoryMap.OneType` | limine-8.4.0/common/mm/pmm.s2.c:657-724 | a disjoint map gives each address at most one type |
| `MemoryMap.AllocSafe` | limine-8.4.0/common/mm/pmm.s2.c:568-627 | a range taken from usable memory meets no live range |
| `MemoryMap.FreeSafe` | limine-8.4.0/common/mm/pmm.s2.c:548-553 | pages of a live range that lie inside what it was given meet no other |
| `MemoryMap.FreeStaysInside` | limine-8.4.0/common/mm/pmm.s2.c:548-573 | what is freed lies inside what was reserved, for every size, exactly when the alignment is a multiple of a page |
| `MemoryMap.FreeSafeExactly` | limine-8.4.0/common/mm/pmm.s2.c:548-573 | after a range is given back the others are safe exactly when its pages meet none of them |
| `MemoryMap.OverfreeReached` | limine-8.4.0/common/mm/pmm.s2.c:548-627 | a run of two allocations of a byte and a free that ends with memory in use marked usable |
| `MemoryMap.MemMap.Free` | limine-8.4.0/common/mm/pmm.s2.c:548-553 | for every pointer and size exactly the pages named become usable, and it panics only when the list is full or nothing would be left |
| `MemoryMap.MemMap.Alloc` | limine-8.4.0/common/mm/pmm.s2.c:568-627 | the range returned is aligned, was usable, lies below 4 GiB unless allowed higher, meets no live range, and comes from the last entry with room; exactly the part of that entry from the range up to the entry's ceiling changes type; panics when none has room, and never when one has and the list can take two more entries |
| `MemoryMap.RoomExactly` | limine-8.4.0/common/mm/pmm.s2.c:568-599 | in a tidy map some entry has room exactly when an aligned range of usable memory of that size exists, below 4 GiB unless allowed higher |
| `MemoryMap.HighestFit` | limine-8.4.0/common/mm/pmm.s2.c:568-602 | and the range given is the highest of them all |
| `MemoryMap.MemMap.FreeLive` | limine-8.4.0/common/mm/pmm.s2.c:548-553 | exactly the pages of the range become usable, and the remaining live ranges stay safe exactly when the pages meet none of them |
| `MemoryMap.MemMap.Run` | limine-8.4.0/common/mm/pmm.s2.c:548-627 | over every run of page-aligned allocations and matching frees, up to a panic for one of the stated reasons: each range returned was right for its state and missed the live ones, which are those taken and not given back |
| `MemoryMap.TracedAt` | limine-8.4.0/common/mm/pmm.s2.c:548-627 | so at every point of the run live ranges do not meet and keep their type |
| `MemoryMap.MemMap.CheckUsable` | limine-8.4.0/common/mm/pmm.c:14-56 | true exactly when every address of the range lies in a RAM entry, although it only counts overlapping bytes |
| `MemoryMap.RamTypes` | limine-8.4.0/common/mm/pmm.c:20-26 | the types that count as RAM |
| `Scheduler.PickFacts` | src/kernel/task.c:150-173 | the pick is eligible, is idle only when no other eligible task exists, and exists when any task is eligible |
| `Scheduler.SomethingToRun` | src/kernel/task.c:302-326 | in every sound state a running processor finds a task |
| `Scheduler.ScheduleKeeps` | src/kernel/task.c:302-349 | one scheduling interrupt keeps all processors and tasks sound |
| `Scheduler.LaunchKeeps` | src/kernel/task.c:242-262 | starting a processor on its idle task keeps the state sound |
| `Scheduler.TickKeeps` | src/kernel/task.c:273-282 | waking sleepers keeps the state sound |
| `Scheduler.SuspendKeeps` | src/kernel/task.c:284-294 | a sleep or an exit together with its yield keeps the state sound |
| `Scheduler.CreateKeeps` | src/kernel/task.c:213-240 | a new task only takes an unused slot |
| `Scheduler.StepKeeps` | src/kernel/task.c:99-349 | every step of the machine keeps the invariant |
| `Scheduler.CreateEffect` | src/kernel/task.c:213-240 | only the first unused slot changes |
| `Scheduler.LaunchEffect` | src/kernel/task.c:242-262 | only the idle task of that processor changes, and runs there |
| `Scheduler.TickEffect` | src/kernel/task.c:273-282 | exactly the sleepers whose time has come are ready |
| `Scheduler.PreemptEffect` | src/kernel/task.c:302-349 | one task runs on the processor, the one it leaves is ready, ended ones are unused slots, and no other changes |
| `Scheduler.SleepEffect` | src/kernel/task.c:284-294 | the same, and the task left sleeps until the tick it named |
| `Scheduler.ExitEffect` | src/kernel/task.c:112-141 | the same, and the slot of the task left is unused |
| `Scheduler.SleepLaw` | src/kernel/task.c:273-294 | over every run from a sleep, the task is asleep and on no processor until the first tick at or after its time, and ready at that tick |
| `Scheduler.InitialInv` | src/kernel/task.c:175-200 | the state after initialisation satisfies it |
| `Scheduler.EveryRunIsSafe` | src/kernel/task.c:99-349 | in every reachable state each current task is running where it should, on one processor only, ready tasks run nowhere, and a next task is always found |
| `Scheduler.PickGetsCloser` | src/kernel/task.c:150-173 | each pick that passes over an eligible task moves the hand strictly closer to it |
| `Scheduler.OnlyPicksMoveTheHand` | src/kernel/task.c:150-173 | between its own picks a processor's hand does not move |
| `Scheduler.Fair` | src/kernel/task.c:150-349 | in every run, a task that stays eligible for a processor is chosen within its distance plus one, hence 64, picks of that processor |
| `Scheduler.SleepRace` | src/kernel/task.c:284-294 | with the lock released between sleeping and yielding, a reachable run makes one task current on two processors |
| `Scheduler.SleepRaceExactly` | src/kernel/task.c:284-294 | from every sound state, a tick and another processor's interrupt in that gap make the sleeper current twice exactly when it is due, may run there and is the first wanted from that processor's hand |
| `Scheduler.ExitRace` | src/kernel/task.c:112-141 | from every sound state, another processor's interrupt between an exit and its yield gives away the slot and stack the processor still runs on |
| `Scheduler.RealStart` | src/kernel/task.c:175-200 | every sound state, the initial one among them, is a sound state of the machine with the code's own locking, no processor being in a gap |
| `Scheduler.RealStepExactly` | src/kernel/task.c:99-349 | each step of the machine with the code's own locking, a second suspension after a missed lock among them, keeps every task on one processor exactly when it is not such an interrupt |
| `Scheduler.RealRunExactly` | src/kernel/task.c:99-349 | so over every run |
| `Scheduler.RealIsOneStep` | src/kernel/task.c:99-349 | when nothing comes in a gap, the machine with the code's own locking takes the steps of the other |
| `Scheduler.Kernel.constructor` | src/kernel/task.c:175-200 | one idle task for each processor, bound to it |
| `Scheduler.Kernel.Cleanup` | src/kernel/task.c:130-141 | exactly the ended tasks become free slots |
| `Scheduler.Kernel.FindFree` | src/kernel/task.c:143-148 | the first unused slot, every one before it being in use, or none exactly when all are |
| `Scheduler.Kernel.PickNext` | src/kernel/task.c:150-173 | one pass with an idle candidate picks what a search for a working task and then for an idle one picks |
| `Scheduler.Kernel.ScheduleIsr` | src/kernel/task.c:302-349 | the arrays take exactly the scheduling step of the machine |
| `Scheduler.Kernel.CreateTask` | src/kernel/task.c:213-240 | exactly the creating step, or nothing without a slot or a stack |
| `Scheduler.Kernel.StartCpu` | src/kernel/task.c:242-262 | exactly the starting step |
| `Scheduler.Kernel.TickAll` | src/kernel/task.c:273-282 | exactly the waking step |
| `Scheduler.Kernel.SleepAndYield` | src/kernel/task.c:284-294 | exactly the sleeping step, of which `SleepEffect` and `SleepLaw` speak |
| `Scheduler.Kernel.ExitAndYield` | src/kernel/task.c:115-119 | exactly the ending step |
| `FatNames.NameEquals` | src/services/fs.c:178-187 | equal length and at every place the same byte or the two cases of one of the letters A to Z |
| `FatNames.NameToShort` | src/services/fs.c:141-157 | the short form that `ShortBytes` spells out |
| `FatNames.ShortBytes` | src/services/fs.c:141-157 | for every name, each of the eleven bytes: stem and extension at their places with a to z made A to Z and every other byte unchanged, blanks elsewhere |
| `FatNames.ShortToName` | src/services/fs.c:159-176 | the listed form: the stem up to a blank, a dot only when there is an extension |
| `FatNames.ShortRoundTrip` | src/services/fs.c:141-176 | a name comes back from the short form up to case exactly when it is an 8.3 name |
| `FatNames.DotLost` | src/services/fs.c:141-176 | the name `a.` comes back as `A` |
| `FatNames.ShortChecksum` | src/services/fs.c:520-527 | the rotating sum over the eleven bytes |
| `FatNames.ChecksumOfAbc` | src/services/fs.c:520-527 | the sum of three bytes, turned right before each |
| `FatNames.WriteLong` | src/services/fs.c:529-562 | a slot marked as a long-name slot that holds exactly the 13 units of its order, one terminator and then filling |
| `FatNames.SlotBytes` | src/services/fs.c:38-47 | each byte of a slot: the order with its mark, the attributes, and the bytes of the name at their three places |
| `FatNames.MarkIsBit6` | src/services/fs.c:261 | the mark is bit 6 of the order |
| `FatNames.ExtractPart` | src/services/fs.c:210-231 | the characters of each group of units up to its terminator |
| `FatNames.PartOf` | src/services/fs.c:210-231 | what is extracted from a written slot is exactly its part of the name |
| `FatNames.PrependPart` | src/services/fs.c:233-240 | in place, the part stands before what was there, cut to the buffer |
| `FatNames.WriteLongSlots` | src/services/fs.c:591-596 | the slots of a name, its last part first |
| `FatNames.LongRoundTrip` | src/services/fs.c:210-240 | for every NUL-free name of 1 to 255 bytes the slots give the name back whatever was read before, and no slot reads as free |
| `FatVolume.Le32RoundTrip` | src/services/fs.c:57-68 | a stored 32-bit word reads back |
| `FatVolume.StoredBytes` | src/services/fs.c:90-109 | the entry of a cluster is the four bytes at four times its number in each copy of the table, the lowest first |
| `FatVolume.ClustersFollow` | src/services/fs.c:78-80 | cluster 2 comes right after the tables, and each cluster right after the one before |
| `FatVolume.Volume.constructor` | src/services/fs.c:749-762 | a mounted volume: its tables agree and describe disjoint chains |
| `FatVolume.Volume.GetEntry` | src/services/fs.c:90-97 | the lower 28 bits of the entry |
| `FatVolume.EndMarks` | src/services/fs.c:90-124 | a chain ends at an entry whose lower 28 bits are 0FFFFFF8 or more |
| `FatVolume.Volume.SetEntry` | src/services/fs.c:99-109 | all copies of the table stay equal, exactly that entry changes, and no sector outside the tables |
| `FatVolume.ChainDistinct` | src/services/fs.c:122-130 | a chain that ends never meets itself |
| `FatVolume.ChainUnique` | src/services/fs.c:122-130 | from one cluster there is one chain |
| `FatVolume.AllocSound` | src/services/fs.c:111-120 | taking a free cluster keeps the division into free clusters and disjoint chains |
| `FatVolume.FreeSound` | src/services/fs.c:122-130 | so does giving back a chain, which becomes exactly free |
| `FatVolume.LinkSound` | src/services/fs.c:687-693 | so does joining a new cluster to the end of a chain |
| `FatVolume.EndSound` | src/services/fs.c:694 | so does marking the end again |
| `FatVolume.Volume.AllocCluster` | src/services/fs.c:111-120 | the first free cluster, now a chain of its own, with one fewer left; fails exactly when there is none and then changes nothing |
| `FatVolume.Volume.FreeChain` | src/services/fs.c:122-130 | the walk ends, exactly the clusters of the chain become free, no data changes |
| `FatVolume.UnusedFreed` | src/services/fs.c:122-130 | a chain given back adds to the free clusters those of its own that are ever given out again |
| `FatData.SectorsApart` | src/services/fs.c:78-80 | clusters of different chains have no sector in common |
| `FatData.ReadChain` | src/services/fs.c:495-517 | the first bytes of the chain's sectors in order, and a NUL after them |
| `FatData.WriteSector` | src/services/fs.c:702-710 | a sector keeps every byte that the data does not cover |
| `FatData.WriteChain` | src/services/fs.c:696-714 | the chain then holds its old start followed by the data; no sector outside it changes |
| `FatData.LastOf` | src/services/fs.c:670-675 | the last cluster of the chain |
| `FatData.CountClusters` | src/services/fs.c:678-685 | the length of the chain |
| `FatData.Allocate` | src/services/fs.c:664-694 | succeeds exactly when the free clusters are as many as the chain lacks, or one more than are needed for a file without a chain; then at least as many clusters as needed, the old chain at their start, no other chain changed |
| `FatEntries.FileFields` | src/services/fs.c:132-139 | first cluster and size written to an entry read back |
| `FatEntries.EntryBytes` | src/services/fs.c:23-36 | where the two halves of the cluster, the size and the mark of a directory stand in an entry |
| `FatEntries.SeekExactly` | src/services/fs.c:242-352 | the slot by slot search is the lookup by whole names, unless it overruns its buffer, and exactly when it does |
| `FatEntries.FittingNeverOverruns` | src/services/fs.c:266-269 | no search overruns where no long name has 64 bytes |
| `FatEntries.LongNameOverruns` | src/services/fs.c:266-269 | every search overruns in a directory that begins with a long name of 64 to 255 bytes |
| `FatEntries.LongNeighbour` | src/services/fs.c:266-269 | such a directory |
| `FatEntries.ChangedLookup` | src/services/fs.c:242-285 | for any directory, what every name finds after one slot is filled, rewritten or deleted |
| `FatEntries.NothingBeyond` | src/services/fs.c:252 | after a zero slot no name is found that is not found before it |
| `FatDirectory.FindEntry` | src/services/fs.c:242-285 | overruns its name buffer exactly when it comes to an entry with 64 bytes or more of long name; otherwise the first entry that goes by the name before a zero slot, and where it is |
| `FatDirectory.FindToDelete` | src/services/fs.c:296-352 | the same for the search that forgets the long name at the start of each cluster, with the slots it remembers, for every directory |
| `FatEntries.SearchesAgree` | src/services/fs.c:242-352 | lookup and the search to delete agree on a name exactly when the first entry that goes by it with its whole or its cut long name goes by it with both |
| `FatEntries.UncrossedAgree` | src/services/fs.c:242-352 | so they agree on every name when no long name crosses into another cluster |
| `FatEntries.CrossedNameStays` | src/services/fs.c:296-352 | a directory with a name that is found and cannot be deleted |
| `FatEntries.CreatedLookup` | src/services/fs.c:564-606 | an entry put in the first free slot is found by its name and hides no other, also where directories repeated after a zero slot come to light |
| `FatEntries.HiddenLookup` | src/services/fs.c:564-606 | an entry that reads as deleted changes no lookup |
| `FatEntries.UpdatedLookup` | src/services/fs.c:626-633 | an entry rewritten in place is found where it was, and so is every other |
| `FatEntries.DeletedLookup` | src/services/fs.c:287-347 | a deleted entry is passed over and every other is found as before, however many slots of its long name go with it |
| `FatEntries.DeletedTidy` | src/services/fs.c:339-344 | the directory stays in order exactly when the whole long name goes with its entry |
| `FatEntries.NoneNext` | src/services/fs.c:339-344 | where no two files have one name, nothing is found under it afterwards |
| `FatDirectory.UpdateDirent` | src/services/fs.c:626-633 | exactly one slot of the directory changes, and no sector outside the directory |
| `FatDirectory.MarkDeleted` | src/services/fs.c:287-294 | exactly that slot becomes a deleted one |
| `FatDirectory.Erase` | src/services/fs.c:339-344 | exactly the remembered slots of the long name and the entry become deleted ones |
| `FatDirectory.FindFree` | src/services/fs.c:575-613 | the first free slot of the whole chain, or its last cluster exactly when there is none |
| `FatDirectory.GrowDirectory` | src/services/fs.c:614-622 | succeeds exactly when a cluster is free; then the directory has the same slots followed by a cluster of zeros |
| `FatDirectory.CreateEntry` | src/services/fs.c:564-624 | succeeds exactly when the directory has a free slot or the volume a free cluster; then the new entry is in the first free slot, after the directory was made longer if it was full, and all other chains are as they were |
| `FatFiles.KeepsOthers` | src/services/fs.c:635-719 | changing the sectors of one chain leaves the contents of every other |
| `FatEntries.SameHit` | src/services/fs.c:242-285 | two names found at one entry are the same name |
| `FatFiles.FindOrCreate` | src/services/fs.c:639-642 | the entry of the name, or a new one exactly when there is a slot or a cluster for it, and otherwise nothing changes |
| `FatFiles.OpenedOk` | src/services/fs.c:639-642 | if the name does not begin with the byte E5 it is then found at that entry, and every other file is as it was |
| `FatFiles.ReadFile` | src/services/fs.c:490-518 | what the file holds; nothing for a directory or an unknown name |
| `FatFiles.Replace` | src/services/fs.c:645-714 | succeeds exactly when there are clusters enough, counting the old chain's own when it is given back; then the new bytes are in the file's chain, which is no other file's |
| `FatFiles.RoomAnew` | src/services/fs.c:650-653 | how many clusters there are for a file written anew: the free ones and its own |
| `FatFiles.StoredFile` | src/services/fs.c:716-718 | once the entry is rewritten the name gives the new bytes and every other name what it gave |
| `FatFiles.WriteFile` | src/services/fs.c:635-719 | succeeds exactly when the entry is no directory and there are clusters enough for a full directory, the data and the extra cluster of a fresh chain; then a write makes the file hold the data, an append its old contents followed by the data, unless the name is a new one that begins with the byte E5; every other file of the directory and every other chain of the volume is as it was, and when it fails so is the file unless it was being overwritten |
| `FatFiles.StoreFailed` | src/services/fs.c:665-693 | what a write that runs out of clusters leaves: every other file as it was, the file itself as it was or new and empty, unless it was being overwritten |
| `FatFiles.StoreEnds` | src/services/fs.c:635-719 | whether it succeeds or not, no two files get the same name and long names stay whole |
| `FatFiles.WriteSeen` | src/services/fs.c:635-719 | what a write does for a name that can be seen |
| `FatFiles.WriteHidden` | src/services/fs.c:635-719 | a new name that begins with the byte E5 is written and every name, itself included, gives what it gave |
| `FatTree.FirstFile` | src/services/fs.c:635-719 | on an empty volume a file is written exactly when it is empty or the clusters but the directory's hold it with one to spare, and read back exactly when its name does not begin with the byte E5 |
| `FatTree.LostFile` | src/services/fs.c:635-719 | a file named `E5 41` is written and cannot be read |
| `FatFiles.WriteThenRead` | src/services/fs.c:490-719 | what was written is what is read, nothing exactly for a new name that begins with the byte E5 |
| `FatRemoval.DeleteFile` | src/services/fs.c:847-865 | done exactly when the second search finds the entry: it goes with its long name, exactly the file's clusters become free, every other file is as it was, and the directory is good exactly when the long name stood whole in the entry's cluster |
| `FatTree.DottedOrder` | src/services/fs.c:820-833 | the slots that `fs_mkdir` writes are in order, with `.` and `..` found in the first sector |
| `FatTree.MakeDirectory` | src/services/fs.c:803-835 | exactly when the name is free and there are clusters, a new directory without files that knows itself and its parent and that the name finds unless it begins with the byte E5; no file of the parent changes in any case |
| `FatRun.Run` | src/services/fs.c:490-865 | over every run of writes, appends and deletions, up to one that loses the file it overwrites, each result is right for its state and the directory is a map from names to bytes that changes by one name at a time |
| `FatRun.UntouchedOverRun` | src/services/fs.c:490-865 | a name that no operation of a run is about gives what it gave |
| `FatRun.LastOverRun` | src/services/fs.c:490-865 | the last operation on a name decides what it gives at the end |
| `FatLongNames.LongCreatedFound` | src/services/fs.c:564-606 | an entry made for a name that needs the long form is found, unless a zero slot comes before it |
| `FatLongNames.LongNameLost` | src/services/fs.c:600-719 | after the write the name finds nothing, for every name that needs the long form and every directory in order |
| `FatLongNames.NineLetters` | src/services/fs.c:600-719 | so for nine letters in an empty directory |
| `TcpReceive.PacketRoundTrip` | src/services/net.c:535-584 | a segment built for sending is read back as itself |
| `TcpReceive.ParseBytes` | src/services/net.c:571-584 | which packets are long enough for their own header, and from which bytes each field is read, options skipped |
| `TcpReceive.PacketBytes` | src/services/net.c:535-557 | the other fields of a packet sent |
| `TcpReceive.FlagBits` | src/services/net.c:543-584 | each flag is one bit, read whatever the others are |
| `TcpReceive.OffsetExact` | src/services/net.c:611-616 | a sequence number stands for one place of the stream |
| `TcpReceive.Connection.SendSegment` | src/services/net.c:535-569 | the segment carries the next number wanted; SYN and FIN take up one number, data its length; what is kept for sending again is that segment |
| `TcpReceive.Connection.Connect` | src/services/net.c:786-800 | the record is ready for any peer at that address, whatever it held; the SYN goes out under the initial number, and nothing is sent yet |
| `TcpReceive.Connection.HandleSynSent` | src/services/net.c:586-597 | established exactly by an answer that matches addresses, flags and number |
| `TcpReceive.Connection.HandleAck` | src/services/net.c:603-610 | the number acknowledged and the waiting, of which `AckExactly` speaks |
| `TcpReceive.AckExactly` | src/services/net.c:603-610 | an acknowledgement ends the waiting exactly when it is of all that was sent, or when the numbers start again at zero between the two |
| `TcpReceive.AckWrapped` | src/services/net.c:603-610 | an old acknowledgement that does |
| `TcpReceive.Connection.HandleOpen` | src/services/net.c:599-627 | one segment of the peer while the connection is open: what is held, acknowledged and answered, and when the receiving ends |
| `TcpReceive.Connection.HandleData` | src/services/net.c:611-618 | data is kept exactly when it starts where the buffer ends, as far as there is room |
| `TcpReceive.Connection.HandleFin` | src/services/net.c:619-627 | the state and the number acknowledged after a FIN; it is the FIN's, with all before it held, exactly when the segment is in place and fits whole or ends where the buffer ends |
| `TcpReceive.FinTakenExactly` | src/services/net.c:611-620 | that condition, as arithmetic on sequence numbers |
| `TcpReceive.FullBufferFin` | src/services/net.c:611-627 | a run in which a byte that is not held is acknowledged in place of the FIN |
| `TcpReceive.Connection.Handle` | src/services/net.c:571-629 | any payload from anyone keeps the buffer a prefix of the peer's stream; before a FIN every acknowledgement names exactly what is held, and the FIN's is right exactly under that condition |
| `TcpReceive.Connection.Recv` | src/services/net.c:814-822 | the next bytes of the stream, as many as are held and asked for |
| `TcpReceive.Connection.Send` | src/services/net.c:806-812 | sends exactly while established, and does not disturb receiving; what is taken, at most 1460 bytes, goes out under the number that follows all before it |
| `TcpReceive.Connection.Close` | src/services/net.c:828-833 | sends a FIN and goes on receiving |
| `TcpReceive.Connection.Poll` | src/services/net.c:697-710 | exactly the segment sent last goes out again, with the acknowledgement of now, when a second has gone by and an answer is waited for; nothing when it took up no number; receiving is not disturbed |
| `TcpReceive.ForgottenByte` | src/services/net.c:553-710 | a run in which a byte is waited for and a late poll sends nothing, the acknowledgement of data having taken the place of what is kept |
| `TcpReceive.Connection.Run` | src/services/net.c:571-833 | over every mixture of arrivals and calls, all that was read is a stretch of the stream without gaps, and every segment sent carries under its number a part of what the program sent |
| `TcpReceive.Connection.Session` | src/services/net.c:571-833 | from the connect on, what is read is a prefix of what the peer wrote, the buffer never exceeds 65536 bytes, and all that is sent tells the truth about what the program sent |
| `TcpReceive.Connection.SpeaksTruth` | src/services/net.c:535-569 | so what is sent is all that the receiving half asks of its own peer, for the first 4 GiB |
| `TcpReceive.Delivered` | src/services/net.c:611-618 | if the pieces of the stream arrive once in order among any losses, copies and strays, all of them are held |
| `TcpReceive.Connection.ReceiveWhole` | src/services/net.c:571-629 | then the buffer is the whole stream |
| `TerminalRing.TextKept` | src/ui/terminal.c:130-145 | plain text is neither lost nor moved when it wraps |
| `TerminalRing.BackspaceUndoes` | src/ui/terminal.c:121-128 | a backspace takes a character back exactly when it did not end the line |
| `TerminalRing.BackspaceAtTheEnd` | src/ui/terminal.c:121-145 | on two columns a backspace after the second character takes nothing back |
| `TerminalRing.ViewStays` | src/ui/terminal.c:114-118 | a scrolled-back view shows the same lines as long as it moves back by what is added |
| `TerminalRing.Terminal.LineIndex` | src/ui/terminal.c:14-19 | the slot congruent to the line number |
| `TerminalRing.Terminal.AllocCells` | src/ui/terminal.c:42-60 | a blank log of the new size, also when memory ran out |
| `TerminalRing.Terminal.SetBounds` | src/ui/terminal.c:84-90 | the log is kept exactly when the size in characters is the same |
| `TerminalRing.CellsFit` | src/ui/terminal.c:33-36 | the size in characters is as many as have room, and at least one |
| `TerminalRing.Terminal.Clear` | src/ui/terminal.c:92-102 | the log is a single blank line again |
| `TerminalRing.Terminal.Advance` | src/ui/terminal.c:108-118 | the ring takes one more line of the log; the view moves along as far as the ring reaches |
| `TerminalRing.Terminal.Putc` | src/ui/terminal.c:104-146 | for every character the ring follows the log |
| `TerminalRing.Terminal.Print` | src/ui/terminal.c:148-152 | so for every string; scrolled back, the screen shows the same text until the view is as far back as the ring reaches |
| `TerminalRing.Terminal.RingPosition` | src/ui/terminal.c:14-23 | a kept line of the log is in the slot of its number modulo the ring |
| `TerminalRing.Terminal.ScrollUp` | src/ui/terminal.c:186-191 | one line back, as far as lines are kept |
| `TerminalRing.Terminal.ScrollDown` | src/ui/terminal.c:193-197 | one line forward, as far as the end |
| `TerminalRing.Terminal.Render` | src/ui/terminal.c:154-176 | the rows drawn are a window of consecutive log lines, blank above its start |
| `TerminalRing.Terminal.CopyVisible` | src/ui/terminal.c:199-236 | the clipboard is the window with trailing blanks removed, exactly as long as measured |
| `TerminalRing.PasteLine` | src/ui/terminal.c:199-241 | a copied line is typed again exactly when it ends in a blank |
| `TerminalRing.PasteOfFullLine` | src/ui/terminal.c:199-241 | a full line is pasted as itself and an empty line |
| `TerminalRing.PasteAll` | src/ui/terminal.c:199-241 | so are all the lines of the clipboard |
| `TerminalRing.Terminal.CopyAndPaste` | src/ui/terminal.c:199-241 | copying the screen and pasting it at the start of a line types every line of it again |
| `TerminalRing.Terminal.Use` | src/ui/terminal.c:104-197 | over every run of typing and scrolling the ring refines the log of what was typed |
| `Blake2b.CallsAt` | limine-8.4.0/common/crypt/blake2b.c:156-209 | the fold has max(1, ceil(len/128)) compressions, each with its block, byte count and flag as RFC 7693 gives them |
| `Blake2b.IncrementCounter` | limine-8.4.0/common/crypt/blake2b.c:65-68 | two words with a carry count modulo 2^128 |
| `Blake2b.Hasher.constructor` | limine-8.4.0/common/crypt/blake2b.c:138-154 | a fresh state stands for the empty message |
| `Blake2b.Hasher.Update` | limine-8.4.0/common/crypt/blake2b.c:156-185 | takes in the whole input exactly when the buffer was empty or the input ends within a block of where it fills up |
| `Blake2b.Hasher.Rounds` | limine-8.4.0/common/crypt/blake2b.c:174-180 | each round counts a block but goes on by what was free, so the count is right exactly in those cases |
| `Blake2b.LoopEnds` | limine-8.4.0/common/crypt/blake2b.c:174-180 | the loop ends exactly when it is not entered or the buffer was not full |
| `Blake2b.SplitMessage` | limine-8.4.0/common/crypt/blake2b.c:156-185 | one byte and then 256 more are not taken in |
| `Blake2b.Hasher.Final` | limine-8.4.0/common/crypt/blake2b.c:187-201 | the last compression is flagged, counts the whole message and is padded with zeros |
| `Blake2b.Hash` | limine-8.4.0/common/crypt/blake2b.c:203-209 | for every input that fits in memory the one-shot hash is the fold of section 3.3 of RFC 7693 |

## Left out

- Page tables: frame-buffer caching flags and the branches for other processors; physical addresses are not cut to 48 bits.
- PageTables.Vmm.AllocTable: an address that holds no table is always found, where the loader panics when memory runs out.
- Device errors in the middle of a write by the installer, partition probing and checksums.
- KernelHeap.Heap.Free: requires a pointer that was handed out and not given back yet; the kernel does not check it.
- Reclaiming of UEFI memory, the conventional-memory allocator and the randomising of free memory.
- Scheduler: stack frames, the context switch itself and the failed attempt to take the lock, which leaves everything as it is.
- FatDirectory.CreateEntry: covers names that need no long-name slots; what the slots of others come to is in `FatLongNames`, without the search for room for them.
- FatFiles.WriteFile: covers names that are there or have the 8.3 form; says nothing about a file that was being overwritten when the clusters ran out; requires that the sizes computed do not wrap around 32 bits.
- FatRemoval.DeleteFile: covers files, not empty directories, and names for which the second search comes to the same entry or to none (`FatEntries.SearchesAgree` says when).
- FatVolume.Volume.constructor: the geometry, the tables and the chains are given; reading them from the boot sector is not modelled.
- Paths, directory listings, renaming and copying in the file system.
- Blake2b.Hasher.Update: requires that a full buffer is not followed by more than a block, since the call would not return.
- The compression rounds of BLAKE2b and the writing out of the digest's words.
- TCP checksums, the clock of resending and the sending window.
- Drawing, colours and the cursor of the terminal; its cells are a grid instead of one row-major array.
- Drivers, interrupts, desktop, shell and browser, ELF loading and configuration parsing.
