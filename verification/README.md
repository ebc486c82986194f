# A verified model of the checkpoint and restart engine

The program splits a process in two. The lower half (the kernel-loader) loads the application's `ld.so`, its stack
and its heap into private memory. The upper half (the application) can be written to an image by its checkpoint
handler and put back later by a new lower half. This project models that engine in Dafny, as programs over an explicit
model of the operating system, and proves what it is for: that what a checkpoint saves is what a restart puts back.

- **Memory** (`Memory.dfy`). An address space maps addresses to cells, a byte with a protection; mapped memory comes in
  whole pages. The class `AddressSpace` has `MmapFixed`, `MmapAnywhere`, `Mprotect` and stores. Besides bad arguments, a
  mapping can be refused for want of memory: a list of coming refusals says which calls are. Mappings that name no
  address are placed anywhere free between two bounds. Mappings past the end of a file read as zeros.
- **Files** (`Transfer.dfy`). A file has contents, a position and a schedule of what the coming `read` and `write` calls
  do: move any number of bytes, be interrupted, ask to be retried, or fail. An empty schedule transfers all that is asked.
  A schedule is called benign when it holds no hard failure and no zero-length transfer.
- **ELF files** (`ElfFormat.dfy`). Headers are written field by field as the standard lays them out; the theorems say that
  the loader (`Loader.dfy`) reads them back.
- **Listings** (`Listing.dfy`, `ProcMaps.dfy`). The maps file of an address space is any text that describes exactly the
  mapped bytes in ascending order. How neighbouring mappings are merged and named is left open, so the theorems hold
  for every merging and every naming that the parser accepts.
- **Image** (`Areas.dfy`, `Checkpoint.dfy`). An image is a context of 984 bytes, opaque here, followed by records: a
  4096-byte area struct, encoded field by field, and the area's bytes. Values of 64 bits are `Word`.

Code that works step by step is a method or a class here: the transfer loops, the parser, the tracking array, the
break, the image writer and reader, the segment loader, the stack copy, the window fences and the checkpoint
protocol. Each is proved equal to a function of its inputs or its old state, readers for every schedule, failing ones
included. The theorems are proved about those functions.

## What the proofs found

- **First match only.** A listed area is written up to its first matching tracked region. `Checkpoint.AreaCompleteIff`
  gives the exact condition under which no tracked byte of an area is lost, and
  `Checkpoint.DisjointRegionsCompleteIff` says what it comes to for regions that do not overlap. A heap that grew past
  its first 100 pages and is listed as one area loses those pages, and of two neighbouring regions listed as one
  area the second is lost.
- **The tracking array wraps.** After 1000 mappings the reported list is empty, not full, and what was mapped before never
  comes back to it. A checkpoint still returns POST_RESUME, but a process that needs the memory it was launched with
  cannot be restarted from it (`Protocol.ThousandthMappingLosesImage`).
- **Read errors while restoring go unnoticed.** `bytes < area->size` compares unsigned, so -1 never counts as short:
  a region is reported as restored with bytes missing exactly when its read fails for good
  (`Restore.RestoredShortIffReadFails`).
- **Names such as `anon_inode:[eventpoll]`** in the maps file make the parser abort; `ProcMaps.AbortsIffNameRefused`
  gives exactly the names that do. Blanks in front of a name are lost.
- **A refused mapping of a later segment goes unnoticed.** The loader reports a base address and the launch goes on
  with the segment missing (`Loader.ElfLoadedIffGranted`).
- **The static base address** survives the first loadable segment if and only if that segment starts in page 0 and has
  no bss pages of its own.
- **`UH_PRELOAD` anywhere in an earlier environment string** gets that string's first two characters overwritten
  instead (`Stack.MentionIsRenamedInstead`).
- **Confinement needs vvar and vdso between the window and the stack.** In any other order an assertion stops the program.
- **A process restored from a signal-initiated image stays in POST_RESTART.** Its next checkpoint request truncates the
  image, writes none, and resets the wrappers; if it had used a wrapper before, the wrapper call after that exits.
- **A checkpoint before any wrapper call may hold nothing.** The list pointer is null after a launch, and an address in
  the earlier lower half's binary after a restart, until some wrapper runs; only under the same statically linked binary is
  that address still right (`Protocol.ListIsCurrentIffKnown`). doCheckpoint returns POST_RESUME all the same.
  `Protocol.RestartableIff` gives the exact condition for a restart: the process is not stuck as above, the list
  pointer is the current one, and the reported regions reach all that the process needs.
- **mmap and sbrk keep the lower half's address across a restart.** The wrappers cache it in static variables that
  `reset_wrappers` leaves alone. A process that called sbrk before its checkpoint and is restored by another binary jumps to
  the old one's address on its next call (`Protocol.MemoryCallReachesIff`, `Protocol.OldAddressesNeedSameBinary`).
- **Heap growth does not know the window.** It maps at the end of the heap wherever that leads;
  `Confine.RunsStayConfined` gives the exact condition under which what a rank tracks stays in its window.
- **A read error at the start of a line of the maps file** is taken for the end of the file
  (`ProcMaps.FailedReadLooksLikeTheEnd`).
- **Shrinking the break** lowers the end of the heap below memory that stays mapped, so growing again clears those pages;
  growing maps over whatever else lies past the end, too (`SbrkWrapper.CallKeepsMemoryIff`).

## Model

| member | source | states |
|---|---|---|
| Pages.RoundingIsTight | common.h:56-63 | ROUND_UP is the least page boundary not below x and ROUND_DOWN the greatest not above it: against any boundary p, comparing x is comparing its rounding |
| Pages.MasksAreRoundings | common.h:59-63 | on 64-bit words the three masks are rounding by remainder, wrap-around included |
| Pages.RoundingsAre | common.h:56-63 | on numbers they are the multiples of 4096 next below and above |
| Bytes.LeByteAt | custom-loader.c:140 | byte k of a written number is its digit k to the base 256: files and memory are little-endian |
| Bytes.StrStrIff | mem-ckpt.c:172-174 | strstr finds the needle if and only if it stands at some offset of the string |
| Pages.TailSharesPage | common.h:61-62 | bytes between an unaligned end and its rounding share a page with the last byte |
| Memory.FreeUpToPage | mem-restore.c:165-174 | mapped memory in whole pages that misses [a, a+n) also misses the page-rounded range that MAP_FIXED replaces |
| Transfer.WriteAll | utils.c:9-30 | for every schedule: the buffer's prefix that the schedule lets through is appended, the result is its length, or -1 after a permanent error, and what is left of the schedule is what the transfer left |
| Transfer.WritingIsReading | utils.c:9-53 | writing a non-empty buffer ends, on every schedule, like reading as many bytes from a file that has them |
| Transfer.ReadAll | utils.c:32-53 | for every schedule: the bytes from the old position to the new one, as many as the schedule and the file let through; their count, or -1 after a permanent error |
| Transfer.ReadingBenign | utils.c:32-53 | without permanent errors and zero-length transfers exactly min(count, bytes left) arrive and the transfer succeeds |
| Transfer.FailsIffReached | utils.c:38-50 | a transfer ends with -1 if and only if a permanent error stands in the schedule before the count is reached, and before a call that moves nothing or finds the end of the file |
| Areas.DecodeEncode | mem-ckpt.c:184 | an area struct survives being written and read back, every field included |
| Areas.EncodeDecode | mem-restore.c:130 | every 4096 bytes are the image of exactly one record |
| Areas.EncodeLayout | procmapsarea.h:62-106 | the bytes at which each field of the struct lies |
| Areas.OverlapMeansCommonAddress | ckpt-restart.h:43-50 | for any two ranges the overlap test holds if and only if they share an address, where a range that is empty or wraps around counts as its start alone, and two such ranges never overlap |
| ProcMaps.AccumulatePrinted | procmapsutils.c:111-145 | reading the printed digits of any 64-bit number in base 10 or 16 gives the number back |
| ProcMaps.AccumulateIsNumber | procmapsutils.c:111-145 | any run of digits, however long, is read as its number modulo 2^64 |
| ProcMaps.DigitLetters | procmapsutils.c:120-142 | the digits are the characters 0 to 9 and, to base 16, a to f in either case, with those values; nothing else is one |
| ProcMaps.ReadDigitsOf | procmapsutils.c:111-145 | the digit loop reads the number, and the character that ends it, from whatever readChar delivers: interrupted reads are retried, failed or empty ones are a NUL |
| ProcMaps.ReadMapsLine | procmapsutils.c:16-95 | for every schedule the program returns what the line parser makes of the characters that readChar delivers, and what follows the line is delivered next |
| ProcMaps.FailedReadLooksLikeTheEnd | procmapsutils.c:25-28 | for every schedule: where a read fails, would block or comes back empty before anything but leading zeros of a line has been read, interrupted reads aside, the call reports the end of the file, whatever is left of it |
| ProcMaps.ParsePrinted | procmapsutils.c:16-95 | the parser inverts the printer of proc(5) on any printable line with an accepted name, whatever the record held before: bounds, size, offset, device, inode and name; of the protection bit 1, 2 and 4 is set exactly for r, w and x; of the flags 0x10 is set, 1 exactly for s, 2 exactly for p, 0x20 exactly for an empty name, and no other |
| ProcMaps.ReadBackIffNameAccepted | procmapsutils.c:55-67 | a printed line is read back if and only if its name is empty, or starts with '/' or '[' and has at most 1023 characters |
| ProcMaps.AbortsIffNameRefused | procmapsutils.c:55-93 | readMapsLine aborts on a printed line if and only if its name, without blanks in front, is not such a name; otherwise the line is read with the name that is left |
| ProcMaps.ParsedNamesAccepted | procmapsutils.c:55-67 | on every text, a line that is parsed at all has such a name |
| ProcMaps.ParsedLineForm | procmapsutils.c:29-48 | on every text, a line that is parsed at all has two addresses in order, a dash and a blank behind them, and then r, w and x or dashes, s or p, and a blank |
| ProcMaps.MapsTextRoundTrip | procmapsutils.c:16-145 | repeated calls on the text of any list of lines return all of them, in order, and then 0 at the end of the text |
| Listing.NextArea | procmapsutils.c:16-95 | on the maps file of an address space a call returns the next area, and the one after the last returns 0 |
| Listing.DescribedAreasList | mem-ckpt.c:122-126 | the areas parsed from all lines cover exactly the mapped bytes, in ascending order, with their protections |
| MmapWrapper.Tracker.Track | mmap-wrapper.c:82-86 | array and counter keep following the log of all successful calls: this lap's entries first, those of the lap before beyond them |
| MmapWrapper.Tracker.GetMmappedList | mmap-wrapper.c:32-40 | the count and the entries below it are the calls since the index last wrapped |
| MmapWrapper.Tracker.MmapFixed | mmap-wrapper.c:73-97 | maps and logs a region with its unrounded length, or changes nothing of memory and log |
| MmapWrapper.ReportIsWholeLogIffNotWrapped | mmap-wrapper.c:24-40 | the reported list is the whole log if and only if there were fewer than 1000 calls; otherwise all of it is still from the log |
| MmapWrapper.WrapForgetsEverything | mmap-wrapper.c:86 | the thousandth call takes the report from complete to empty |
| SbrkWrapper.Heap.SbrkCall | sbrk-wrapper.c:40-85 | the program computes the break function: new state and returned value |
| SbrkWrapper.SbrkStep | sbrk-wrapper.c:40-85 | a call moves the break and returns the old one, or returns -1 and changes neither variable nor memory; it touches memory only between the old and the new end, and keeps the heap invariant, at a break moved to address 0 too |
| SbrkWrapper.SbrkFailsIff | sbrk-wrapper.c:60-77 | a call fails if and only if the sum of break and increment is negative or at least 2^64, or exceeds the end of the heap where growth is refused, not in user space, or would start below the lowest mappable address |
| SbrkWrapper.SbrkWithinHeap | sbrk-wrapper.c:66-84 | any call that stays at or below the end of the heap returns the old break, moves it by the increment and changes nothing in memory; the end becomes the page boundary next to the new break, unless the increment is 0 |
| SbrkWrapper.CallKeepsMemoryIff | sbrk-wrapper.c:69-80 | a call leaves all mapped memory as it was if and only if it fails, or does not grow the heap, or whatever is mapped where it grows is what growth puts there; so always where that range is free |
| SbrkWrapper.SbrkRefinesBarePointer | sbrk-wrapper.c:40-85 | over every run of calls, stores and other mmaps, shrinking below the initial break and down to address 0 included: the break is a bare pointer moved by the successful increments, the end is page-aligned and not below it, all memory between the initial break and it is read-write, and a byte that stays below the break keeps its value |
| SbrkWrapper.ShrinkThenGrowClearsDeadPages | sbrk-wrapper.c:69-80 | shrinking by whole pages and growing again leaves the break where it was and those pages zero, though they had stayed mapped |
| SbrkWrapper.Heap.CreateNewHeapForRtld | kernel-loader.c:437-453 | succeeds exactly when there is room; then 100 new zero pages and no others, the first inaccessible, beside unchanged memory; the break invariant holds and the region is tracked |
| Checkpoint.SkippedIffUnwanted | mem-ckpt.c:165-178 | an area is skipped if and only if its protection lacks the read bit, or the letters of vvar, vdso or vsyscall stand at some offset of its name buffer before the NUL |
| Checkpoint.OrdinaryAreasWanted | mem-ckpt.c:165-178 | areas with names such as [heap] and [stack], or none, are skipped exactly if not readable, whether writable or not |
| Checkpoint.SpecialAreasSkipped | mem-ckpt.c:172-174 | areas named [vdso], [vvar] or [vsyscall] are skipped |
| Checkpoint.HeapAndStackSaved | mem-ckpt.c:130-178 | every byte of a readable heap, stack or unnamed area that its first matching region holds is saved |
| Checkpoint.FirstMatch | mem-ckpt.c:145-160 | the index of the first tracked region that contains the area or is contained in it, and no earlier one does |
| Checkpoint.Sources | mem-ckpt.c:122-126 | the listed areas that are written: all those not skipped that some region matches, in listing order, and no others |
| Checkpoint.CutIsSection | mem-ckpt.c:148-158 | a written record is the meeting of its area and its region, address by address, and rounded to pages it stays in the area |
| Checkpoint.SavedIffInFirstMatch | mem-ckpt.c:113-178 | a byte is saved if and only if it is in a listed area with the read bit set and without the words vvar, vdso and vsyscall before the NUL of its name, and in that area's first matching region |
| Checkpoint.SavedOnce | mem-ckpt.c:113-163 | no byte is in two records |
| Checkpoint.SelectedIsSound | mem-ckpt.c:113-163 | every record lies, pages and all, in mapped memory of the protection it states |
| Checkpoint.SelectedIsPageDisjoint | mem-ckpt.c:122-160 | the records ascend and stay apart after page rounding |
| Checkpoint.AreaCompleteIff | mem-ckpt.c:145-160 | every tracked byte of a listed area is saved if and only if the first matching region covers, inside the area, all that regions have in common with it |
| Checkpoint.DisjointRegionsCompleteIff | mem-ckpt.c:145-160 | for regions that do not overlap this means: no region partly overlaps the area, and at most one meets it |
| Checkpoint.CleanlyTrackedIsCovered | mem-ckpt.c:145-160 | no region straddling the area's bounds and sole contained regions are enough for completeness |
| Checkpoint.OffFirstMatchIsLost | mem-ckpt.c:145-160 | a byte of a listed area that the area's first match does not hold, or that has no match, is not saved |
| Checkpoint.GrownHeapLosesItsFirstPages | kernel-loader.c:442-451 | a heap grown beyond its first 100 pages and listed as one area, in any tracked list where all else that meets the area lies above those pages: no byte of them is saved |
| Checkpoint.MergedNeighboursLoseTheSecond | mem-ckpt.c:145-160 | in any tracked list: where one region lies in a listed area, no byte of a later region that overlaps none before it is saved from that area |
| Checkpoint.WriteRelevantMemoryRegion | mem-ckpt.c:130-163 | for an unreadable area nothing is written; for any other the loop over the reported list writes the one record of its first match, or nothing |
| Checkpoint.CheckpointMemory | mem-ckpt.c:113-128 | under a benign schedule the file gains exactly the records of a checkpoint of the current memory |
| Checkpoint.WriteImage | mem-ckpt.c:84-104 | the truncated image becomes the context followed by those records |
| Restore.ConflictIffSomeArea | mem-restore.c:146-151 | some listed area overlaps the wanted range if and only if the range, or its first address, is in use |
| Restore.AnyOverlappingRegion | mem-restore.c:136-154 | the search of the maps file answers exactly that |
| Restore.RestoredShortIffReadFails | mem-restore.c:165-195 | a region that could be mapped and protected is reported as restored with fewer bytes than its size if and only if a permanent read error is met before its bytes, or the image, end |
| Restore.FailedReadIsReportedRestored | mem-restore.c:181-195 | a concrete case: three bytes of a page arrive, the next read fails, and the region is protected and reported as restored with zeros for the rest |
| Restore.RestoreMemoryRegion | mem-restore.c:156-196 | for every schedule, failing ones included, the result, the memory, the log and the position are the restore function's, and mapped memory is unchanged |
| Restore.RestoreMemoryFrom | mem-restore.c:125-134 | for every image and schedule the result is the function that reads record after record, a failed header read being taken for a header; everything mapped before stays as it was |
| Restore.RestoreNeverClobbers | mem-restore.c:125-196 | for every byte string as an image, malformed or truncated too, and every schedule, failing ones too, mapped bytes and protections stay whether restore succeeds or not; the log only grows |
| Restore.RestoreMemoryForImage | mem-restore.c:80-100 | for every file and schedule: a missing file fails and changes nothing, a short or failed context read aborts, otherwise the context is returned and memory restored by the record function |
| Restore.RestoreMemoryForImages | mem-restore.c:65-78 | for every schedule: image after image until one fails; the array of contexts holds each image's own |
| RoundTrip.CheckpointRecordsOk | mem-ckpt.c:113-163 | what a checkpoint writes is a list of records that restore can map: page-aligned, apart, and as long as stated |
| RoundTrip.RestoreRecords | mem-restore.c:125-196 | reading a list of such records into free pages, under any benign schedule, puts back every byte and protection, tracks one region per record, changes nothing else and adds nothing else |
| RoundTrip.CheckpointRestoreRoundTrip | mem-ckpt.c:81-187 | for every memory, listing, tracked list, context and benign read schedule: restoring the image where its pages are free succeeds, returns the context, and yields every saved byte with its protection; what was mapped is unchanged and only saved pages are added |
| RoundTrip.RestoredIffPagesFree | mem-restore.c:156-167 | without memory pressure an image is restored if and only if none of its pages is in use |
| RoundTrip.AllRanksRestored | mem-restore.c:65-78 | for every number of ranks confined to different windows, in any order and under any benign read schedules, all images are restored, each context is its rank's, and in the end every rank's saved bytes are there |
| RoundTrip.CheckpointThenRestore | mem-ckpt.c:84-128 | the programs one after the other: every process writes its image under its own benign schedule of writes, one new process restores all of them under benign schedules of reads, and it succeeds with each context and every saved byte of each process back; of a process with fewer than 1000 tracked regions whose unskipped areas are all covered by their first matches, every tracked byte of those areas is back |
| RoundTrip.TrackedBytesAreBack | mem-ckpt.c:113-163 | the composition: below 1000 logged regions and with first matches that cover, what restore brings back is every tracked byte of every unskipped area, and not just the saved ones |
| RoundTrip.HollowImageRestoresNothing | mem-ckpt.c:140-144 | without a list of regions the image is the context alone; restoring it succeeds and leaves memory exactly as it was |
| RoundTrip.RestoredRegions | mem-restore.c:169-174 | the regions that restore tracks, one per record, are each mappable, ascending, and apart by whole pages |
| RoundTrip.SourcesFollowRecords | mem-ckpt.c:145-160 | against a listing that follows the restored records, a new checkpoint picks exactly those areas, in order |
| RoundTrip.SecondCheckpointRepeatsFirst | mem-restore.c:169-195 | a checkpoint after a restart with fewer than 1000 records has the same records in the same order: address, size and protection; and each byte is that of the first checkpoint if and only if memory at its address has not changed since the restart |
| Confine.WindowsDisjoint | kernel-loader.c:522-526 | no address is in the windows of two ranks |
| Confine.ConfineAddrSpace | kernel-loader.c:511-556 | when all assertions hold, the pages from the break to the window, from the window to vvar, from vvar to vdso and from vdso to the stack are inaccessible zero pages, all other memory is as it was, and free memory between heap and stack is left only in the rank's 4GB window; without memory pressure they hold if and only if heap, window, vvar, vdso and stack follow in this order |
| Confine.FenceSparesWindow | kernel-loader.c:529-553 | with the special areas in order, every address of the window is mapped, or free, exactly as before |
| Confine.RunsStayConfined | sbrk-wrapper.c:60-80 | when the kernel places mappings between the heap and the stack: over every later run of placed mappings, fixed mappings, refused ones, sbrk calls, unmappings in the window, mprotects and stores, all that has been tracked is in the window if and only if no successful fixed mapping named a range outside it and no growth of the heap started before it or ended, rounded to a page, past its end; what is reported is then in it too, and in any case nothing outside becomes free |
| Confine.BrkGrows | sbrk-wrapper.c:69-80 | an sbrk call tracks a region exactly when it succeeds beyond the end of the heap: from there to the rounded new break |
| Confine.ConfinedRanksShareNothing | kernel-loader.c:511-556 | confined ranks have no tracked address in common |
| ElfFormat.ElfReadBack | custom-loader.c:118-151 | the loader reads what chapters 4 and 5 of the System V gABI write: for all field values, a file that begins with an ELF header and has its program headers at the offset stated below 2^31 is accepted if and only if it is identified as 64-bit ELF; then entry point, table offset, count and every field of every program header are those written |
| ElfFormat.TableOffsetTruncated | custom-loader.c:134-138 | the table offset is cut to an int: the table is read from its low 32 bits on, or from byte 64 where they are negative |
| ElfFormat.WrittenSegmentLoaded | custom-loader.c:139-269 | from the bytes of such a file to memory: byte i of each loadable segment is at 2^32 times the rank plus 1, plus 3 * 2^30, plus p_vaddr and i; it is the file's byte at p_offset + i, or zero from p_filesz on, and readable, writable and executable exactly by the PF bits |
| ElfFormat.SegmentProtBits | custom-loader.c:164-169 | PF_R, PF_W and PF_X give PROT_READ, PROT_WRITE and PROT_EXEC, bit by bit |
| Loader.SegmentStopsIff | custom-loader.c:170-180 | an assertion stops the process exactly if p_memsz is below p_filesz, or p_align exceeds 1 and p_vaddr and p_offset differ modulo it; clearing faults exactly if there is bss and the rest of the last file page is not all writable |
| Loader.BssArithmetic | custom-loader.c:231-233 | for every base and header the bounds of the bss are the mathematical ones modulo 2^64 |
| Loader.MappingArithmetic | custom-loader.c:203-206 | for every base and header the mapping begins at the page of base plus the int cut from p_vaddr, modulo 2^64, and is as many pages as p_filesz bytes from there in the page need |
| Loader.ElfLoader.MapSegment | custom-loader.c:158-269 | the program does what the segment function says, with its 64-bit wrap-around, in memory, log and the two static variables, failures included |
| Loader.SegmentIsLoaded | custom-loader.c:158-269 | an acceptable segment: p_filesz bytes of the file, then zeros up to p_memsz, with the segment's protection; memory off its pages is unchanged |
| Loader.FirstSegmentKeepsBaseIff | custom-loader.c:264-267 | the base address survives the first segment if and only if p_vaddr is in page 0 and no separate bss pages are mapped |
| Loader.HeadersAreLoaded | custom-loader.c:139-151 | while no mapping is refused the header loop loads all segments whose pages are apart, later ones leaving earlier ones intact, and tracks exactly their regions |
| Loader.ElfLoadCorrect | custom-loader.c:112-156 | after the loop every loadable segment's image is at the rank's base plus p_vaddr, the base is what is reported, and memory off the segments is as before |
| Loader.ElfLoadedIffGranted | custom-loader.c:139-151 | under any refusals and into free pages: an address is reported if and only if the first mapping is not refused, and then all segments are in place if and only if none of the mappings asked for is refused; the loop ends the same way in both cases |
| Loader.HeaderTableInMemory | custom-loader.c:152-155 | the reported program-header address holds the file's own table when a segment maps the file from its start at address 0 |
| Loader.ElfLoader.LoadElfInterpreter | custom-loader.c:112-156 | checks and loop together: a bad or truncated header stops the process, otherwise the outcome and the reported addresses are those of the header loop |
| Stack.RelocateVectorResult | kernel-loader.c:289-292 | each word of a relocated vector is the original one moved by the difference of the vectors; the rest of the region is unchanged |
| Stack.MovedString | kernel-loader.c:267-292 | a string above the vectors reads the same at the moved address |
| Stack.FindPreload | kernel-loader.c:350-356 | the first environment entry that contains UH_PRELOAD, or none |
| Stack.NamesPreloadIff | kernel-loader.c:350-356 | an entry contains it if and only if the characters UH_PRELOAD stand at some offset of its string |
| Stack.PatchAuxvResult | kernel-loader.c:222-244 | every entry keeps its type, the three kinds get their new values, all others keep theirs |
| Stack.DeepCopyPreservesMeaning | kernel-loader.c:249-372 | on the new stack every argument (argument 0 for the TARGET_LD value) and every environment entry points inside the region to the string it had, where two bytes have become LD: the first two of the renamed entry, which reads its string with LD in front |
| Stack.KeptIffApart | kernel-loader.c:350-356 | a string is as it was if and only if it covers neither of those bytes, or had these letters there |
| Stack.PreloadRenamedIffFirst | kernel-loader.c:347-356 | an entry that begins with UH_PRELOAD becomes an LD_PRELOAD setting if and only if its string is that of the first entry to contain that name |
| Stack.MentionIsRenamedInstead | kernel-loader.c:347-356 | a concrete stack, with a layout that meets all conditions: its first entry X=UH_PRELOAD is rewritten to LDUH_PRELOAD, and the UH_PRELOAD setting after it is not |
| Stack.DeepCopyVectors | kernel-loader.c:267-368 | argc and the NULL terminators are as copied, the auxiliary vector is patched entry by entry and ends where it did, and everything below the stack is zero |
| Stack.DeepCopyStack | kernel-loader.c:249-372 | the in-place program produces that copy and returns the address of argc, without writing the original stack |
| Stack.FindAuxv | kernel-loader.h:32-42 | the scan ends one word past the NULL of the environment |
| Startup.CreateNewStackForRtld | kernel-loader.c:378-430 | succeeds exactly when there is room; then new pages hold the copy, the rest of memory is unchanged and the region is tracked |
| Startup.RunRtld | kernel-loader.c:55-127 | image, stack and heap together: when it starts, the loaded image is intact beside the copied stack and the fresh zero heap, and nothing else was mapped; entry point and stack pointer are theirs; it dies exactly when loading does, and starts whenever loading succeeds, there is room, and the next two mappings, stack and heap, are not refused |
| Startup.NewAuxvDescribesImage | kernel-loader.c:222-244 | after loading and relocation every AT_PHDR, AT_PHNUM and AT_ENTRY entry (3, 5 and 9 in the psABI) is base+e_phoff, e_phnum and base+e_entry, every other entry and the terminator are as copied, and AT_PHDR leads to the file's header table in memory |
| Startup.LaunchedStackDescribesImage | kernel-loader.c:55-127 | the same, read from the memory that a successful launch leaves |
| Startup.SmallElfIsLoadable | custom-loader.c:112-156 | a file that is its own only segment, with bss behind it, meets every condition of the loading theorems, the mapped header table included |
| Startup.InitialBaseInWindow | custom-loader.c:184-190 | the loader's address is in the rank's window, three quarters into it |
| Startup.SegmentsInWindowIff | custom-loader.c:184-203 | loaded there, the segments stay in the window if and only if each ends at or below 2^30 |
| Startup.LaunchStaysConfined | kernel-loader.c:69-95 | behind the fence a launch tracks its segments, stack and heap in the rank's window only, leaves nothing free outside it between the process's heap and stack, and sets up a break from which runs stay confined as in Confine.RunsStayConfined |
| Startup.ConfineAndRun | kernel-loader.c:55-127 | the program from the fence on: it dies if the fence's order fails; with a free window behind the special areas in order, into which the kernel may place a stack that leaves room for the heap, a loadable file with an entry point is started; and what the tracking array reports after a started launch is confined to the window |
| Protocol.Process.DoCheckpoint | mem-ckpt.c:69-111 | the program makes the protocol step: state, image file and returned value; the image holds the process only through a list pointer into the running binary, and a list that reaches all that the process needs |
| Protocol.Process.MpiWrapper | upper-half-wrappers.c:54-87 | an MPI wrapper binds on first use, uses up addr.bin, exits if it is not there, and dispatches through the record it holds |
| Protocol.Process.MemoryWrapper | upper-half-wrappers.c:23-52 | mmap and sbrk bind in the same way and jump to the address kept since their first call, which is the current lower half's or astray |
| Protocol.RestoreProcess | kernel-loader.c:140-151 | a restart announces the new lower half, tracks the restored regions anew, and resumes the saved process inside the handler if the image holds it and its pages are free; otherwise there is no process |
| Protocol.CompleteImageBringsProcessBack | mem-ckpt.c:130-163 | what a complete image is: an image holds the process if and only if every address it needs is a saved one; then restoring its bytes into free pages puts all of those back, and tracks the regions that the protocol says |
| Protocol.RunsAreSound | mem-ckpt.c:69-111 | over every run of launches, wrapper calls, doCheckpoint calls, crashes and restarts: the state is RUNNING whenever the application runs, every complete image stores POST_RESTART, doCheckpoint returns POST_RESUME exactly in a process that went through writing, POST_RESTART exactly where a process continues from an image and RUNNING only on early failure; what is written is a complete image if and only if the list pointer is of the running binary and its list reaches all needed memory; a restart continues exactly from a complete image into free pages; every MPI call reaches the lower half that started or restored the process, and mmap and sbrk do, and are tracked there, if and only if the address they keep is of its binary |
| Protocol.ListIsCurrentIffKnown | mem-ckpt.c:141-144 | over every run, signals included, the list pointer leads into the running binary if and only if a wrapper ran since the last launch or restart, or the image restored was taken under the same binary |
| Protocol.PostRestartIffStuck | mem-ckpt.c:97-110 | over every run, signals included, a running process holds POST_RESTART if and only if it was restored from a signal-initiated image and has not called doCheckpoint since |
| Protocol.RequestWritesIffNotStuck | mem-ckpt.c:97-110 | a checkpoint request, by call or signal, writes an image to the end if and only if the process is not in that state, and that image holds the process if and only if besides the list pointer is current and the reported regions reach all that it needs |
| Protocol.RestartableIff | mem-ckpt.c:97-163 | so after a crash the process can be restarted from that request's image, in free pages and under any binary, if and only if all three hold; it then tracks exactly the regions written |
| Protocol.EarlyCheckpointIsHollow | mem-ckpt.c:140-144 | a checkpoint right after any launch returns POST_RESUME, and the restart from its image dies |
| Protocol.ThousandthMappingLosesImage | mmap-wrapper.c:82-86 | a launch, n mappings by the application and a checkpoint: it returns POST_RESUME for every n, and the process can be restarted if and only if fewer than 1000 mappings have been tracked |
| Protocol.MpiCallReachesIff | upper-half-wrappers.c:54-87 | over every run, signals included, an MPI call reaches the current lower half unless a request was made in POST_RESTART after addr.bin was used up; then it exits |
| Protocol.MemoryCallReachesIff | upper-half-wrappers.c:23-52 | over every run, signals included, mmap and sbrk reach the current lower half if and only if besides their first call, counted through restarts, was made under the binary that runs now; otherwise they go astray |
| Protocol.OldAddressesNeedSameBinary | upper-half-wrappers.c:26-35 | a concrete run: sbrk, checkpoint, crash and restart; the next sbrk goes astray, and a checkpoint before it follows a stale pointer, if and only if the new lower half is another binary |
| Protocol.StuckCheckpointIsFatal | mem-ckpt.c:107-110 | in that state a request after a wrapper call destroys the old image, writes none, and the next wrapper call of any kind exits |
| Protocol.StuckRunExists | mem-ckpt.c:107-110 | a concrete run that gets there |

## Left out

- MPI stubs and wrapper macros (lower-half-mpi.c, upper-half-mpi-wrappers.c, mpi-lh-if.c): a wrapper call is one dispatch to the lower half it is bound to.
- `getcontext`, `setcontext`, stack and FS registers, signals and threads: the context is opaque bytes, resumption one step; the FS macros around lower-half calls are not modelled.
- trampoline_setup.c, `patchLibc`, `checkLibrary`, `getProcStatField`, `getStackRegion`, `getVvarRegion`, `getVdsoRegion`, usage texts and logging.
- Environment lookups: the rank, the TARGET_LD pointer and the start of the stack are parameters; that UH_PRELOAD is set appears as an entry of the environment vector.
- Running several ranks after a restart: addr.bin is removed by the first reader. The N-rank theorem ends at restored memory.
- The break across a restart: its two variables are in the lower half and not in the image. The wrapper addresses that the trampolines write into ld.so's code are not modelled.
- Image file names, and `rank_` names for more than one digit.
- How the kernel merges, splits and names areas: every listing that covers the mapped bytes and whose names the parser accepts is allowed. MAP_GROWSDOWN and protection bits beyond read, write and execute are not modelled, and a refused call changes nothing.
- Pages of a file mapping past the end of the file read as zeros here, where Linux raises SIGBUS.
- Structs whose fields are copied by value: the area passed to a writer is a value, and a read returns its bytes where the source writes them through a pointer. The undefined padding of a struct is carried as the slots it occupies.
- The stack region of the copy is an array of bytes; `Startup.CreateNewStackForRtld` then writes it to the new pages.
- Confine.ConfineAddrSpace: takes the bounds of vvar, vdso and stack, and the old break that the one-page `sbrk` returns, as parameters, instead of reading them between the mappings.
- Stack.DeepCopyStack: takes the stack as the kernel lays it out, with at least one argument, every string above the vectors and inside the region, and the original region apart from the new one.
- SbrkWrapper.SbrkRefinesBarePointer: stores are to live heap memory.
- Loader.ElfLoadCorrect: for segments as chapter 5 of the System V gABI has them, on separate pages, below 2^31, with p_align a page multiple and p_filesz not 0; the loader's other outcomes are in `Loader.ElfLoader.MapSegment`.
- Startup.RunRtld: leaves out the trampolines and addr.bin, which come after; the fence before it is in `Startup.ConfineAndRun`.
- Checkpoint.WriteImage: says nothing about what an image holds after a permanent write error, which the source logs or ignores.
- Listing.NextArea: maps files are read through interruptions only; what a failing read would do is in `ProcMaps.ReadMapsLine`.
- Protocol.RunsAreSound: what the process needs is given with each checkpoint, as regions; what a call to an address in another binary would do, a list function's included, is not modelled: such a wrapper call ends the process, and such an image counts as one that does not hold it.
- Confine.RunsStayConfined: that the kernel places mappings between the process's heap and its stack is an assumption about it, as is that the application unmaps only in the window.
