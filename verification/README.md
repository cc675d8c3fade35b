# Verified model of the /proc code and the thread exercises

A Dafny model of the hardest parts of a collection of Linux kernel laboratory exercises: the
procfs entry protocol, the crash-dump file, the sysctl registry, the procfs tree, the
pagemap and command-line readers and the process listing of `HamielecKarol/cw05/proc`, and three thread
exercises of `HamielecKarol/cw01`.  Code that changes things in place is modelled by classes and
arrays whose methods are proved against specification functions; protocols between threads
are state machines whose actions are the atomic steps of the code, with classes beside them
that do the same steps on the fields of the code.

`dafny verify dfyconfig.toml` checks the whole project.

| modules | subject |
|---|---|
| `Rundown*` | callers into a module against the removal of its /proc entry: biased counter, completions, list of openers |
| `Oldmem`, `Elf*`, `Vmcore*` | crash-dump image: ELF headers rewritten, file read, file mapped |
| `Sysctl*` | registration of nested sysctl tables and the directory tree behind it |
| `ProcNames`, `ProcTree`, `ProcRemove` | index of names, shapes, registration and teardown of the /proc tree |
| `Pagemap*` | /proc/pid/pagemap: the walk, and what an entry says bit by bit |
| `Cmdline`, `Readdir` | /proc/pid/cmdline and the listing of processes |
| `Ring`, `Phases*` | queue with write and read phases (zad6) |
| `Readers`, `ReadersWriters` | readers and writers over semaphores (zad1) |
| `Library*` | library with a special writer (zad2) |

## How things are modelled

- Runs of a state machine are sequences of states and actions; an action names the thread
  that moves, so a statement about all runs is about all interleavings.
- Every 32-bit or 64-bit limit that matters is written out: the wrap of `in_use`, `PATH_MAX`, the
  wrap of file positions in `mmap_vmcore`, the bits of a pagemap entry.
- Memory that can be read, pages that are RAM, calls of the memory manager that fail, the cuts that
  a page walk makes, and the processes that come and go are arbitrary parameters.
- Auxiliary history (who put what, which hooks ran) is kept beside the state; no step depends on
  it.

Where the code and its documentation part:

- The merging of PT_NOTE headers keeps all other headers only if there is a PT_NOTE header and the
  PT_NOTE headers come first; `VmcoreExport.MergedExactly` is this exact condition.  Inputs where it
  fails: `VmcoreExport.NoteAfterLoad` for the order, `VmcoreExport.FirstHeaderLost` for a table
  without a PT_NOTE header.  Under the condition `VmcoreExport.EveryLoad` is what a reader of the
  file relies on.
- Without a PT_NOTE header the clearing behind the moved headers also leaves the header buffer;
  `VmcoreMerge.ClearInside` is the exact condition.
- A read of the command line behind its terminating NUL delivers bytes of the environment;
  `Cmdline.BehindTheLine` says exactly when reads agree with the line.
- zad6 finishes only when the numbers of writers and readers balance, zad2 loses no letter only with
  at most fifteen writers; both are if-and-only-if results.
- `mmap_vmcore` accepts a position whose end wraps around 64 bits and then maps only the part
  of the range that the file has: `VmcoreMmap.MappedWhole` is the exact condition for a mapping of
  the whole range, `VmcoreMmap.LastPageRequest` an input.

## Model

| member | source | states |
|---|---|---|
| RundownTheorems.RundownSafe | HamielecKarol/cw05/proc/inode.c:173-190 | on every run of any number of threads (fewer than 2^31), from the moment the rundown has returned no module hook (open, read, release) is running, at that moment or at any later one |
| RundownTheorems.NoNewCallers | HamielecKarol/cw05/proc/inode.c:125-137 | once BIAS is added the number of callers inside never grows again |
| RundownTheorems.NoNewOpeners | HamielecKarol/cw05/proc/inode.c:181-190 | once the remover has seen the last caller leave, every opener on the list at a later moment was on it then: the list that it drains only shrinks |
| RundownTheorems.NoFault | HamielecKarol/cw05/proc/inode.c:125-190 | no opener record is touched after it is freed, no completion of a thread that has gone is signalled, and in_use is exactly the callers inside plus BIAS once the rundown has begun, within 32 bits |
| RundownTheorems.ReleaseAtMostOnce | HamielecKarol/cw05/proc/inode.c:139-171 | the release hook of a file is started at most once, and only for a recorded opener |
| RundownTheorems.ReleasedByClose | HamielecKarol/cw05/proc/inode.c:367-380 | when the close of an open file has returned, its release hook has run exactly once and to the end, whichever party ran it |
| RundownTheorems.ReleasedByRundown | HamielecKarol/cw05/proc/inode.c:173-190 | when the rundown has returned, the same holds of every opener ever recorded |
| RundownTheorems.ReadExcludesRelease | HamielecKarol/cw05/proc/inode.c:207-219 | a read hook never runs on a file whose release hook is running |
| RundownHooks.OpenFails | HamielecKarol/cw05/proc/inode.c:349-364 | if the open hook of the module fails, then at every later moment the file is not recorded, not open, and its release hook has not run |
| RundownHooks.OpenSucceeds | HamielecKarol/cw05/proc/inode.c:349-364 | if the open hook succeeds or there is none, the call returns with the file open, and recorded if and only if there is a release hook |
| RundownHooks.GetsIn | HamielecKarol/cw05/proc/inode.c:125-130 | a read or an open comes to the hook if and only if BIAS has not been added when it raises in_use; otherwise it returns at once, and the file of an open stays closed |
| RundownHooks.ReleaseIsHook | HamielecKarol/cw05/proc/inode.c:139-171 | a release is counted when a thread starts the release hook of the file, and only then |
| RundownTheorems.Progress | HamielecKarol/cw05/proc/inode.c:139-190 | in every reachable state with an unfinished call some thread can step: no lost wake-up, no deadlock |
| RundownTheorems.RunsEnd | HamielecKarol/cw05/proc/inode.c:181-190 | a run in which k calls were started has at most 19k actions: the drain loop and every call terminate |
| RundownTheorems.StuckMeansDone | HamielecKarol/cw05/proc/inode.c:173-190 | a run that cannot go on has all threads idle and no rundown half way |
| RundownSteps.NextInv | HamielecKarol/cw05/proc/inode.c:125-190 | every atomic step of every thread keeps the joint invariant over counter, opener list, completions, lock and program counters |
| RundownSteps.OneWaiter | HamielecKarol/cw05/proc/inode.c:151-157 | of the two parties that meet at an opener at most one waits, so the single completion pointer is enough |
| RundownSteps.SignalTarget | HamielecKarol/cw05/proc/inode.c:132-136 | the completion that unuse_pde signals is that of the rundown still waiting |
| RundownEffects.StepEffect | HamielecKarol/cw05/proc/inode.c:125-190 | a step moves one thread only: nobody gets in while in_use is negative, the opener list grows only where an open records its file, only the drain loop ends the rundown, and the rank behind termination falls |
| RundownEntry.Entry.constructor | HamielecKarol/cw05/proc/generic.c:382-391 | a fresh entry satisfies the initial state and the invariant |
| RundownEntry.Entry.FinishStep | HamielecKarol/cw05/proc/inode.c:164-170 | unlinks and frees the record and completes the other party |
| RundownEntry.Entry.CloseStep | HamielecKarol/cw05/proc/inode.c:371-377 | proc_reg_release searches the list for the file under the lock |
| RundownEntry.Entry.StepOf | HamielecKarol/cw05/proc/inode.c:125-190 | the enabled step of a thread inside a call, executed in place, is the step of the state machine and keeps the invariant |
| RundownEntry.Entry.ActionOf | HamielecKarol/cw05/proc/inode.c:125-190 | the same for every enabled action, the start of a call included: any run of the state machine can be run on the entry |
| Oldmem.ReadFromOldmem | HamielecKarol/cw05/proc/vmcore.c:88-125 | on success the exact old bytes, zeros on non-RAM pages; fails exactly when a page of the range cannot be copied, with the error of the first such page and everything before it stored |
| Oldmem.PageBytes | HamielecKarol/cw05/proc/vmcore.c:69-85 | inside one page the exported bytes are all zeros or all raw |
| Oldmem.OldBytesAt | HamielecKarol/cw05/proc/vmcore.c:69-125 | the byte exported at an old address is 0 if a registered hook returns 0 for its page, else the byte in memory; it cannot be read if and only if the hook does not return 0 and the copy of the page fails |
| VmcoreDevice.Vmcore.ReadVmcore | HamielecKarol/cw05/proc/vmcore.c:184-253 | delivers the slice of headers ++ notes ++ chunks at the position, advances the position by its length, and fails exactly when a byte of the slice lies on a page that cannot be copied |
| VmcoreDevice.Vmcore.ReadChunks | HamielecKarol/cw05/proc/vmcore.c:232-252 | the chunk loop serves the request across chunk boundaries |
| VmcoreDevice.Vmcore.ReadBuffer | HamielecKarol/cw05/proc/vmcore.c:200-227 | the part of a read that the header or the notes buffer serves |
| Seqs.ReadsConcatenate | HamielecKarol/cw05/proc/vmcore.c:184-253 | any sequence of reads, each at the position the last one left, concatenates to one large read |
| Seqs.SliceAt | HamielecKarol/cw05/proc/vmcore.c:184-253 | what a read is to deliver: as many bytes as asked for and as there are, from its position on |
| VmcoreLoad.GetVmcoreSize | HamielecKarol/cw05/proc/vmcore.c:505-516 | the size is headers plus notes plus all chunks |
| Elf.DecodeEncode | HamielecKarol/cw05/proc/vmcore.c:676-688 | a program header written to its 56 bytes reads back unchanged |
| Elf.EncodeDecode | HamielecKarol/cw05/proc/vmcore.c:676-688 | and 56 bytes read as a header are written back unchanged |
| Elf.FieldBytes | HamielecKarol/cw05/proc/vmcore.c:676-688 | byte i of each field is the i-th digit of its value to the base 256, lowest first, at the place of the field (System V gABI, chapter 5, Program Header) |
| Elf.FromLEIs | HamielecKarol/cw05/proc/vmcore.c:527-570 | the value of two, four and eight bytes, lowest first |
| Elf.InBuffer | HamielecKarol/cw05/proc/vmcore.c:527-534 | e_phnum is the two bytes at 56, header i is the 56 bytes at 64 + 56i, and its first bytes tell PT_LOAD and PT_NOTE |
| ElfNotes.RealSize | HamielecKarol/cw05/proc/vmcore.c:549-563 | the loop over note headers finds the end of the walk defined recursively |
| ElfNotes.NoteExtent | HamielecKarol/cw05/proc/vmcore.c:550-552 | a note whose first two words are n and d takes twelve bytes and the whole words that hold n and d bytes |
| ElfNotes.ParseIs | HamielecKarol/cw05/proc/vmcore.c:549-563 | parsing gives exactly the one sequence of whole notes with names that the bytes are put together from, if there is one |
| ElfNotes.WalkParses | HamielecKarol/cw05/proc/vmcore.c:549-563 | the bytes before that end are whole notes (System V gABI, chapter 5, Note Section) |
| ElfNotes.WalkMaximal | HamielecKarol/cw05/proc/vmcore.c:549-563 | the walk stops at a header with zero name size or where the next note would not fit, and nowhere earlier |
| ElfNotes.ParseConcat | HamielecKarol/cw05/proc/vmcore.c:625-645 | the notes of two trimmed segments one behind the other are the notes of both |
| VmcoreHeaders.UpdateNoteHeaderSize | HamielecKarol/cw05/proc/vmcore.c:527-570 | every PT_NOTE header gets the real size of its notes, nothing else in the buffer changes; fails exactly when a segment cannot be read |
| VmcoreHeaders.GetNoteNumberAndSize | HamielecKarol/cw05/proc/vmcore.c:590-607 | number and total size of the PT_NOTE headers |
| VmcoreHeaders.CopyNotes | HamielecKarol/cw05/proc/vmcore.c:625-645 | the notes buffer becomes the concatenation of the trimmed segments |
| VmcoreNotes.SegmentAt | HamielecKarol/cw05/proc/vmcore.c:625-645 | the notes of a segment are in the buffer behind those of the segments before it |
| VmcoreMerge.MergeHeaders | HamielecKarol/cw05/proc/vmcore.c:676-699 | memcpy, memmove, memset and the e_phnum update together produce exactly the merged layout |
| VmcoreMerge.MergedTable | HamielecKarol/cw05/proc/vmcore.c:676-699 | that layout decodes to one PT_NOTE header followed by the headers behind the first nr_ptnote, with the new e_phnum |
| VmcoreMerge.Memmove | HamielecKarol/cw05/proc/vmcore.c:694-694 | moving bytes one by one inside the buffer, forwards to a lower and backwards to a higher address, puts the old bytes at the destination although the ranges overlap, and changes nothing else |
| VmcoreMerge.MoveHeaders | HamielecKarol/cw05/proc/vmcore.c:686-694 | memcpy and memmove together, for any number of PT_NOTE headers, leave what is defined as the memory after the move, and the new size of the table |
| VmcoreMerge.AfterMoveTable | HamielecKarol/cw05/proc/vmcore.c:686-694 | that memory holds the merged note and the headers from index nr_ptnote on; but for nr_ptnote 0 the merged note twice and the headers behind the first |
| VmcoreMerge.ClearInside | HamielecKarol/cw05/proc/vmcore.c:691-696 | the clearing behind the moved headers stays inside the buffer if and only if there is a PT_NOTE header |
| VmcoreNotes.MergeKeepsNotes | HamielecKarol/cw05/proc/vmcore.c:648-702 | the merged segment parses to the notes of all original segments, in order |
| VmcoreNotes.DropIsOthers | HamielecKarol/cw05/proc/vmcore.c:691-699 | dropping the first nr_ptnote headers keeps exactly the others if and only if the PT_NOTE headers lead the table |
| VmcoreExport.MergedExactly | HamielecKarol/cw05/proc/vmcore.c:648-702 | the table that the writes leave is one PT_NOTE header and all other original headers, unchanged and in order, if and only if there is a PT_NOTE header and the PT_NOTE headers come first |
| VmcoreExport.FirstHeaderLost | HamielecKarol/cw05/proc/vmcore.c:688-694 | the other failing family: without a PT_NOTE header, whatever the table, the merged note stands at indices 0 and 1 and the first header is lost |
| VmcoreExport.NoteAfterLoad | HamielecKarol/cw05/proc/vmcore.c:691-699 | the input: of a header buffer with a PT_LOAD header followed by a PT_NOTE header no PT_LOAD header is exported |
| VmcoreLoad.ProcessPtLoad | HamielecKarol/cw05/proc/vmcore.c:892-933 | PT_LOAD offsets are rewritten and the memory is listed, everything else stays |
| VmcoreLoad.SetListOffsets | HamielecKarol/cw05/proc/vmcore.c:979-992 | each chunk gets the sum of what is before it |
| VmcoreLoad.OffsetsAgree | HamielecKarol/cw05/proc/vmcore.c:892-992 | the two offset computations agree: header offset = chunk offset + place in the chunk, and the chunk covers the segment |
| VmcoreLoad.ChunkPages | HamielecKarol/cw05/proc/vmcore.c:908-930 | the chunk of a PT_LOAD header is the pages of 4096 bytes that its memory touches, no more; there is one for each such header, in order |
| VmcoreExport.MergeNoteHeaders | HamielecKarol/cw05/proc/vmcore.c:648-702 | on the buffer: merged table, zeros behind it, rest of the ELF header unchanged, padded notes; fails exactly when notes cannot be read |
| VmcoreExport.ParseCrashElf64Headers | HamielecKarol/cw05/proc/vmcore.c:1002-1056 | the file exists exactly when the ELF header is sane and headers and notes can be read, and then consists of rewritten headers, padded notes and listed memory |
| VmcoreExport.SaneIs | HamielecKarol/cw05/proc/vmcore.c:1016-1027 | which bytes of an ELF header make it sane |
| VmcoreExport.LoadEndToEnd | HamielecKarol/cw05/proc/vmcore.c:892-992 | reading p_memsz bytes of the file at the rewritten p_offset of any PT_LOAD header of the merged table gives exactly the old memory at its original place |
| VmcoreExport.EveryLoad | HamielecKarol/cw05/proc/vmcore.c:648-992 | if the PT_NOTE headers lead, every original PT_LOAD header is exported with only p_offset changed, and the file holds its old memory there |
| VmcoreExport.NotesEndToEnd | HamielecKarol/cw05/proc/vmcore.c:648-702 | the first exported header is the PT_NOTE header, and the file holds at its p_offset the notes of all original segments |
| VmcoreExport.SegmentInFile | HamielecKarol/cw05/proc/vmcore.c:648-702 | the notes of each original PT_NOTE segment are in the file, at the merged p_offset behind those of the segments before it; all fields of the merged header |
| VmcoreExport.OtherHeaders | HamielecKarol/cw05/proc/vmcore.c:909-913 | headers of other types are exported unchanged, and e_phnum is their number |
| VmcoreMmap.VmArea.RemapOldmemPfnChecked | HamielecKarol/cw05/proc/vmcore.c:345-393 | the batched mapping equals mapping each page alone with the zero page for non-RAM pages; it fails exactly when one of its calls does, with -EAGAIN and the page map as before |
| VmcoreMmap.CheckedFrameAt | HamielecKarol/cw05/proc/vmcore.c:355-380 | in that mapping the zero page stands for exactly the pages for which the registered hook returns 0 |
| VmcoreMmap.FrameByteAt | HamielecKarol/cw05/proc/vmcore.c:355-380 | which bytes each kind of page shows |
| VmcoreMmap.PageByPageIsChecked | HamielecKarol/cw05/proc/vmcore.c:345-393 | mapping page by page, each with a call of its own, gives that same page map |
| VmcoreMmap.VmArea.RemapOldmemPfn | HamielecKarol/cw05/proc/vmcore.c:395-407 | with and without a registered hook the resulting pages are the same function of the page numbers |
| VmcoreMmap.MmapVmcore | HamielecKarol/cw05/proc/vmcore.c:409-486 | error conditions, flag changes and page map: on success the area shows the pages of the file from the given one on, as far as the file goes (64-bit wrap of the position included); on any failure no page has changed |
| VmcoreMmap.AcceptedIs | HamielecKarol/cw05/proc/vmcore.c:414-418 | a request that does not reach 2^64 is accepted if and only if all its pages are pages of the file |
| VmcoreMmap.AcceptedWrapped | HamielecKarol/cw05/proc/vmcore.c:414-418 | one that reaches it, if and only if its size and its end less 2^64 are within the file |
| VmcoreMmap.PageMapped | HamielecKarol/cw05/proc/vmcore.c:462-485 | a page of the request is mapped if and only if it is a page of the file |
| VmcoreMmap.MappedWhole | HamielecKarol/cw05/proc/vmcore.c:414-418 | an accepted request is mapped to its last page if and only if its end does not wrap around 64 bits |
| VmcoreMmap.LastPageRequest | HamielecKarol/cw05/proc/vmcore.c:414-418 | the input: one page at page number 2^52 - 1 is accepted whatever the size of the file, and nothing is mapped |
| VmcoreMmap.MappedIsRead | HamielecKarol/cw05/proc/vmcore.c:409-486 | the mapped pages, read in order, are the bytes a read of the same range delivers |
| VmcoreMmap.MapChunks | HamielecKarol/cw05/proc/vmcore.c:462-485 | the chunk loop maps every chunk the range touches |
| VmcoreMmap.ExportedAligned | HamielecKarol/cw05/proc/vmcore.c:409-486 | what the header code exports consists of whole pages, so it can be mapped |
| SysctlPath.AppendPath | HamielecKarol/cw05/proc/proc_sysctl.c:1302-1313 | appends name and slash if they fit into PATH_MAX, exactly then; the prefix is untouched |
| SysctlPath.SplitText | HamielecKarol/cw05/proc/proc_sysctl.c:1248-1265 | splitting the built path at the slashes gives back the component names |
| SysctlTree.Canonical | HamielecKarol/cw05/proc/proc_sysctl.c:921-969 | the registered tables determine the whole directory tree and all its counts, whatever happened before |
| SysctlTree.DirsExactly | HamielecKarol/cw05/proc/proc_sysctl.c:1549-1563 | the directories are exactly those with a table (or a held reference) at them or below |
| SysctlTree.Registry.GetSubdir | HamielecKarol/cw05/proc/proc_sysctl.c:921-969 | finds or creates the subdirectory and moves the caller's reference there, counts kept |
| SysctlTree.Registry.InsertDir | HamielecKarol/cw05/proc/proc_sysctl.c:207-233 | a new directory comes with its creator's reference and raises the count of its parent |
| SysctlTree.Registry.InsertTable | HamielecKarol/cw05/proc/proc_sysctl.c:207-233 | a table raises the count of its directory |
| SysctlTree.Registry.DropDir | HamielecKarol/cw05/proc/proc_sysctl.c:1549-1563 | drops one reference; a directory goes with its last one, and so on upwards |
| SysctlTree.Registry.RegisterTable | HamielecKarol/cw05/proc/proc_sysctl.c:1218-1283 | registers one more table in the directory the path names; every count stays exact |
| SysctlTree.Registry.DropTable | HamielecKarol/cw05/proc/proc_sysctl.c:1549-1563 | removes this table only; every count stays exact |
| SysctlTable.CountSubheaders | HamielecKarol/cw05/proc/proc_sysctl.c:1315-1332 | computes the number defined on nested tables |
| SysctlTable.CountIsFlat | HamielecKarol/cw05/proc/proc_sysctl.c:1315-1406 | that number is exactly the number of tables that get registered |
| SysctlTable.OneMeansFiles | HamielecKarol/cw05/proc/proc_sysctl.c:1439-1449 | after the single-child descent a count of one means that the table has no directories left |
| SysctlTable.DescentKeeps | HamielecKarol/cw05/proc/proc_sysctl.c:1439-1444 | the descent changes nothing in what is registered |
| SysctlTable.RegisterOwn | HamielecKarol/cw05/proc/proc_sysctl.c:1334-1381 | a table is registered for the files of a level unless it consists of directories only |
| SysctlMeaning.FlatIs | HamielecKarol/cw05/proc/proc_sysctl.c:1334-1406 | the tables that registering stands for are those of exactly the nested tables, at their paths, that have a file or no directory |
| SysctlMeaning.FileRegistered | HamielecKarol/cw05/proc/proc_sysctl.c:1350-1372 | a file name is registered for a path if and only if the nested table has a file with that name there |
| SysctlMeaning.FilesTimes | HamielecKarol/cw05/proc/proc_sysctl.c:1350-1372 | the names of one registered table are those of the files of its level, as often as they are there |
| SysctlMeaning.AllFitsIs | HamielecKarol/cw05/proc/proc_sysctl.c:1302-1313 | the paths fit if and only if the text of the given path, of each front part of it and of each directory below it is shorter than 4095 |
| SysctlMeaning.GrownIs | HamielecKarol/cw05/proc/proc_sysctl.c:1419-1478 | each table of the list is registered under an identity of its own that was not in use, and every other table is as before |
| SysctlRegister.RegisterLeafTables | HamielecKarol/cw05/proc/proc_sysctl.c:1334-1406 | registers exactly the (directory path, files) pairs of the nested table in order and stores their headers; the shared buffer is as before; fails exactly when a path is too long, with a first part registered |
| SysctlRegister.RegisterPaths | HamielecKarol/cw05/proc/proc_sysctl.c:1419-1478 | registers exactly the pairs the nested table stands for, or restores the registry completely when some path does not fit |
| SysctlRegister.UnregisterTable | HamielecKarol/cw05/proc/proc_sysctl.c:1572-1599 | removes exactly the tables of this registration, visiting each header once |
| SysctlRegister.RoundTrip | HamielecKarol/cw05/proc/proc_sysctl.c:1419-1599 | registering and then unregistering leaves the whole tree and all counts as they were |
| ProcNames.MatchOrder | HamielecKarol/cw05/proc/generic.c:31-39 | the order of names is total and zero only for equal names |
| ProcNames.MatchChain | HamielecKarol/cw05/proc/generic.c:31-39 | and transitive |
| ProcNames.MatchIs | HamielecKarol/cw05/proc/generic.c:31-39 | shorter names come first, names of one length by the first character in which they differ |
| ProcNames.SubdirFind | HamielecKarol/cw05/proc/generic.c:53-73 | finds the entry with the name if and only if the directory has one |
| ProcNames.SubdirInsert | HamielecKarol/cw05/proc/generic.c:75-100 | refuses exactly a taken name, else puts the item at its place in the order; rebalancing may be any order-preserving one |
| ProcTree.PostOnce | HamielecKarol/cw05/proc/generic.c:583-627 | the order of the teardown has each entry of the subtree exactly once |
| ProcTree.ChildrenFirst | HamielecKarol/cw05/proc/generic.c:583-627 | and every entry behind all entries below it |
| ProcTree.SiblingsInOrder | HamielecKarol/cw05/proc/generic.c:603-610 | of two children the first in the index goes first, with everything below it |
| ProcRemove.PushOrder | HamielecKarol/cw05/proc/generic.c:605-610 | going down to the first child changes neither the order of the remaining work nor its members, and leaves fewer entries attached |
| ProcRemove.ProcFs.TearDown | HamielecKarol/cw05/proc/generic.c:603-625 | the loop terminates and runs down and puts every entry of the subtree once, in that order |
| ProcRemove.EventsAt | HamielecKarol/cw05/proc/generic.c:612-625 | in the log each entry is run down and then put, before the next entry is touched |
| ProcRemove.AfterRemoval | HamielecKarol/cw05/proc/generic.c:583-627 | what is left, entry by entry: nothing of the subtree, but entries in use elsewhere with one use less and no links; the parent with one link less if the root was a directory; all else as before |
| ProcRemove.ProcFs.RemoveProcSubtree | HamielecKarol/cw05/proc/generic.c:583-627 | the named subtree is gone (entries in use elsewhere keep one use less); outside it only the index and the nlink of the parent change, nlink exactly if the root is a directory; the remaining directory is well formed; -ENOENT and no change for an unknown name |
| ProcRemove.ProcFs.PdePut | HamielecKarol/cw05/proc/generic.c:531-544 | the entry leaves the reachable entries and is freed with its last use |
| ProcRemove.ProcFs.ProcRegister | HamielecKarol/cw05/proc/generic.c:333-353 | the entry joins the index of the directory, or -EEXIST |
| ProcRemove.ProcFs.ProcMkdirData | HamielecKarol/cw05/proc/generic.c:426-447 | a new empty directory with two links, its parent one link more, or no change at all |
| ProcRemove.ProcFs.MkdirRemove | HamielecKarol/cw05/proc/generic.c:426-627 | making a directory and removing it restores every entry; only the shape of the parent's index may differ, not its items |
| Pagemap.PmeReadsBack | HamielecKarol/cw05/proc/task_mmu.c:1095-1111 | the flag bits and the 55 frame bits of an entry can be read back |
| PagemapEntries.ResidentEntry | HamielecKarol/cw05/proc/task_mmu.c:1163-1203 | bit by bit, for a resident page: present, not swap, the frame or 0, soft-dirty, file, mapped once |
| PagemapEntries.SwappedEntry | HamielecKarol/cw05/proc/task_mmu.c:1163-1203 | for a swapped page: swap, not present, type and offset |
| PagemapEntries.HugeEntry | HamielecKarol/cw05/proc/task_mmu.c:1205-1244 | for a page of a transparent huge page, with its own frame in it |
| PagemapEntries.HugetlbEntry | HamielecKarol/cw05/proc/task_mmu.c:1272-1314 | for page k of a hugetlb page |
| PagemapEntries.UnmappedEntry | HamielecKarol/cw05/proc/task_mmu.c:1122-1160 | without a mapping: only soft-dirty of the vma |
| PagemapEntries.OutsideEntry | HamielecKarol/cw05/proc/task_mmu.c:1122-1160 | outside all vmas: 0 |
| PagemapEntries.NoOtherBits | HamielecKarol/cw05/proc/task_mmu.c:1095-1111 | bits 57 to 60 are clear in every entry |
| Pagemap.Reader.AddToPagemap | HamielecKarol/cw05/proc/task_mmu.c:1113-1120 | stores the next entry and reports the end of the buffer exactly when it is full |
| Pagemap.Reader.PteHole | HamielecKarol/cw05/proc/task_mmu.c:1122-1160 | terminates and adds, for each page of the hole, the entry of the per-page table |
| Pagemap.Reader.PteRangeWalk | HamielecKarol/cw05/proc/task_mmu.c:1250-1267 | the same for pages behind a page table |
| Pagemap.Reader.ThpWalk | HamielecKarol/cw05/proc/task_mmu.c:1205-1244 | the same for a part of a transparent huge page |
| Pagemap.Reader.HugetlbWalk | HamielecKarol/cw05/proc/task_mmu.c:1272-1314 | the same for a part of a hugetlb page |
| Pagemap.Reader.WalkPageRange | HamielecKarol/cw05/proc/task_mmu.c:1343-1433 | however the range is cut into pieces and whichever walkers run, the buffer holds the per-page table from the start of the walk on, and is never overrun |
| Pagemap.PagemapRead | HamielecKarol/cw05/proc/task_mmu.c:1343-1433 | delivers exactly the slice of the per-page table asked for, up to the end of the address space, and advances the position by its size; the error cases |
| Pagemap.TableSlice | HamielecKarol/cw05/proc/task_mmu.c:1343-1433 | entries read from a later position on are a slice of the whole table |
| Pagemap.TableAt | HamielecKarol/cw05/proc/task_mmu.c:1343-1433 | entry i from page s on is that of page s + i |
| Pagemap.SequentialReads | HamielecKarol/cw05/proc/task_mmu.c:1343-1433 | reads of any whole numbers of entries, each at the position the last one left, deliver what one large read at the first position delivers |
| Pagemap.ReadToEnd | HamielecKarol/cw05/proc/task_mmu.c:1343-1433 | so reading from the start on until enough is asked for delivers the entry of each page of the process once, in order |
| Cmdline.CmdlineRead | HamielecKarol/cw05/proc/base.c:202-399 | delivers exactly the answer defined on the two areas (all of ARGV, or ARGV and ENVP up to a NUL or an unreadable byte), for any position and count, and advances the position by its length |
| Cmdline.AnswerIs | HamielecKarol/cw05/proc/base.c:225-398 | that answer from the memory alone: nothing without an environment address, without arguments or with an unreadable last byte; else the bytes from the position on, of the arguments if they end with NUL, else of both areas, as far as asked for, a hole or the first NUL |
| Cmdline.CopyRun | HamielecKarol/cw05/proc/base.c:271-292 | the page-by-page loop copies the whole run whatever the page size |
| Cmdline.ReadOn | HamielecKarol/cw05/proc/base.c:305-387 | the seam between ARGV and ENVP |
| Cmdline.LineIs | HamielecKarol/cw05/proc/base.c:225-388 | from the memory alone: the line is all of ARGV if its last byte is NUL, else ARGV ++ ENVP cut at the first NUL; it ends earlier only at a byte that cannot be read |
| Cmdline.AnswerIsSlice | HamielecKarol/cw05/proc/base.c:243-398 | up to the end of the line a read delivers min(count, bytes left) bytes of it |
| Cmdline.SequentialReads | HamielecKarol/cw05/proc/base.c:243-398 | sequential reads of any sizes concatenate to the line |
| Cmdline.BehindTheLine | HamielecKarol/cw05/proc/base.c:225-388 | reads at a given position agree with the line if and only if nothing is there to read at all, or the position is not behind the end of the line, or there is no text there |
| Cmdline.BehindTheNul | HamielecKarol/cw05/proc/base.c:342-387 | the input: with one byte of arguments and an environment that begins with NUL, wherever the two areas are, a read behind that NUL delivers the next byte of the environment |
| Readdir.Directory.NextTgid | HamielecKarol/cw05/proc/base.c:3116-3149 | terminates; passes over no process that was a visible leader at every look so far; the task it returns led a group at the last look, had that pid at the look before, and is held with exactly one reference |
| Readdir.Directory.ProcPidReaddir | HamielecKarol/cw05/proc/base.c:3154-3197 | whatever happens between the looks: names stay in strictly increasing order, nobody who was there at every look so far is missing, each name listed is vouched for by three looks in a row, and no reference is kept |
| Readdir.CompleteListing | HamielecKarol/cw05/proc/base.c:3154-3197 | after the last call every process that was a visible leader at each look of the listing is listed exactly once, whatever becomes of it afterwards |
| Readdir.LinksListed | HamielecKarol/cw05/proc/base.c:3163-3172 | after the last call self and thread-self are listed exactly once each |
| Readdir.ListedLeads | HamielecKarol/cw05/proc/base.c:3154-3197 | a pid in the listing was that of a task which at the next look led a thread group and at the look after that could be seen |
| Ring.Queue.QueuePut | HamielecKarol/cw01/zad6/zad6.c:42-54 | appends, or -1 and no change exactly when all cells but one are taken |
| Ring.Queue.QueueGet | HamielecKarol/cw01/zad6/zad6.c:56-68 | removes the oldest element, or -1 exactly when empty |
| Ring.StoreBehind | HamielecKarol/cw01/zad6/zad6.c:49-51 | storing at the put index changes nothing that is queued |
| Ring.LetterIs | HamielecKarol/cw01/zad6/zad6.c:86-86 | the letter of a thread: 65 + id for the first 57, for any thread the remainder by 122 of a signed byte |
| Phases.NextInv | HamielecKarol/cw01/zad6/zad6.c:75-117 | every step keeps mutual exclusion, the phase counts, the history and the absence of lost wake-ups |
| PhasesTheorems.InOrder | HamielecKarol/cw01/zad6/zad6.c:75-117 | no queue operation fails, letters are read in the order they were put, every writer past its put has put once |
| PhasesTheorems.WholeBatches | HamielecKarol/cw01/zad6/zad6.c:86-111 | a batch is read only after it is fully written, and the next one is written only after it is fully read |
| PhasesTheorems.NoLostWakeUp | HamielecKarol/cw01/zad6/zad6.c:81-104 | a thread is parked only while its side has nothing to do |
| PhasesTheorems.OneInside | HamielecKarol/cw01/zad6/zad6.c:80-114 | at most one thread is between lock and unlock |
| PhasesTheorems.StuckMeansDone | HamielecKarol/cw01/zad6/zad6.c:75-117 | for any numbers of writers and readers: a state without an enabled step has every thread returned if and only if the numbers balance |
| PhasesTheorems.EqualNumbers | HamielecKarol/cw01/zad6/zad6.c:17-22 | N writers and N readers balance if and only if N is a multiple of QUEUE_ELEMENTS |
| PhasesTheorems.RunsEnd | HamielecKarol/cw01/zad6/zad6.c:75-117 | n threads take at most n(2n + 6) steps, and three more for each spurious wake-up |
| PhasesThreads.Shared.WriterPut | HamielecKarol/cw01/zad6/zad6.c:86-86 | the writer's put on the ring is the step of the state machine |
| PhasesThreads.Shared.ReaderGet | HamielecKarol/cw01/zad6/zad6.c:106-106 | the reader's get on the ring is the step of the state machine |
| PhasesThreads.Shared.WriterSignal | HamielecKarol/cw01/zad6/zad6.c:87-90 | the switch to reading with its broadcast |
| PhasesThreads.Shared.ReaderSignal | HamielecKarol/cw01/zad6/zad6.c:108-111 | the switch to writing with its broadcast |
| PhasesThreads.Shared.StepOf | HamielecKarol/cw01/zad6/zad6.c:75-117 | the enabled step of any thread, a spurious wake-up included, executed in place on ring and fields, is the step of the state machine and keeps the invariant |
| Readers.NextInv | HamielecKarol/cw01/zad1/zad1.c:26-44 | every reader step keeps: readers_count counts, and writerSem is taken exactly by a writer or by the readers as a group |
| Readers.ReadingHolds | HamielecKarol/cw01/zad1/zad1.c:26-44 | while a reader reads, the readers hold writerSem and no writer does |
| Readers.ReadersStuck | HamielecKarol/cw01/zad1/zad1.c:26-44 | readers cannot block one another: if none can step, all have returned or a writer writes |
| ReadersWriters.Exclusion | HamielecKarol/cw01/zad1/zad1.c:14-44 | no writer writes while a reader reads, and at most one writer writes |
| ReadersWriters.ReaderReadsOnce | HamielecKarol/cw01/zad1/zad1.c:26-44 | on every run a reader reads at most once, and exactly once before it has returned |
| ReadersWriters.WriterWritesOnce | HamielecKarol/cw01/zad1/zad1.c:14-24 | likewise a writer writes |
| ReadersWriters.StuckMeansDone | HamielecKarol/cw01/zad1/zad1.c:14-44 | no deadlock: without an enabled step all threads have returned and count and semaphores are as at the start |
| ReadersWriters.RunsEnd | HamielecKarol/cw01/zad1/zad1.c:14-44 | every run ends after at most 10 steps a reader and 2 a writer |
| Readers.Room.Step | HamielecKarol/cw01/zad1/zad1.c:26-44 | the reader's code between two atomic points, executed in place, is the enabled step of the state machine |
| ReadersWriters.Shared.StepOf | HamielecKarol/cw01/zad1/zad1.c:14-44 | the enabled step of any reader or writer, executed in place, is the step of the state machine and keeps the invariant |
| Library.NextInv | HamielecKarol/cw01/zad2/zad2.c:74-143 | every step of writers, special writer and readers keeps the invariant |
| LibraryTheorems.PrefixOfPuts | HamielecKarol/cw01/zad2/zad2.c:74-119 | stored, in transit and queued letters are together the letters put, in order, each writer's once; the library is a prefix and stays inside its array |
| LibraryTheorems.NoReaderDuringCopy | HamielecKarol/cw01/zad2/zad2.c:108-117 | the library changes only while no reader reads |
| LibraryTheorems.ReaderReadsOnce | HamielecKarol/cw01/zad2/zad2.c:121-143 | on every run a reader of the library reads at most once, and exactly once before it has returned |
| LibraryTheorems.NoLostWakeUp | HamielecKarol/cw01/zad2/zad2.c:99-102 | the special writer stays parked with three letters queued only until the writer inside the mutex broadcasts |
| LibraryTheorems.StuckMeansDone | HamielecKarol/cw01/zad2/zad2.c:74-143 | a run can stop only with everyone returned, the special writer parked, all full triples stored and the rest queued |
| LibraryTheorems.RunsEnd | HamielecKarol/cw01/zad2/zad2.c:74-143 | every run ends: at most 10 steps a reader, 18 a writer, 3 more, and three for each spurious wake-up |
| LibraryTheorems.FailsBeyondCapacity | HamielecKarol/cw01/zad2/zad2.c:41-53 | no queue or library operation can fail if and only if there are at most fifteen writers |
| LibraryThreads.Shared.constructor | HamielecKarol/cw01/zad2/zad2.c:24-39 | the fields start in the initial state, and with at most fifteen writers in the invariant |
| LibraryThreads.Shared.WriterPut | HamielecKarol/cw01/zad2/zad2.c:81-81 | the writer's put on the ring is the step of the state machine |
| LibraryThreads.Shared.SpecialGet | HamielecKarol/cw01/zad2/zad2.c:103-106 | a turn of the loop that takes three letters |
| LibraryThreads.Shared.SpecialCopy | HamielecKarol/cw01/zad2/zad2.c:110-114 | a turn of the loop that stores them; that the store stays inside the library and the turn inside what was taken follows from the invariant |
| LibraryThreads.Shared.StepOf | HamielecKarol/cw01/zad2/zad2.c:74-143 | the enabled step of any writer, reader or the special writer, executed in place, is the step of the state machine and keeps the invariant |

## Left out

- Rundown: hooks other than open, read and release (they all have the form of read), a missing read hook, and failing allocations; the VFS contract is assumed: one close for each opened file, reads only while it is open, one rundown for each entry.
- Rundown: memory ordering below sequentially consistent atomics and locks.
- VmcoreExport.ParseCrashElf64Headers: assumes at least one PT_NOTE header, notes that end inside their segment with a zero name size, and sizes within 64 bits; the check of the machine type is not modelled, nor the releasing of buffers on failure.
- Vmcore: the 32-bit ELF functions (the same code on other widths), the fault path of s390, and the replaceable elfcorehdr hooks, which are taken to read old memory.
- VmcoreExport.ParseCrashElf64Headers: its condition for the existence of the file leaves out failing allocations (-ENOMEM) and the conversion of the byte count of a read to int, by which a note segment of 2^31 bytes or more can be taken for a failure; VmcoreHeaders.UpdateNoteHeaderSize and VmcoreHeaders.CopyNotes likewise.
- Vmcore: list elements are values in a sequence; their links are not modelled.
- VmcoreMmap.VmArea.Remap: maps all its pages or none; a call that fails half way is not modelled, and removing no pages is a no-op.
- Sysctl: name clashes, failing allocations and the failure path of insert_header, links between sets, permanently empty directories, a lost race in get_subdir, and the checks of sysctl_check_table; they are assumed not to occur.
- SysctlTree.Registry.RegisterTable: directories are identified by their path, so the identity of their headers and the index of names inside one directory are not modelled.
- Sysctl: the waiting for readers of a table in start_unregistering.
- ProcRemove.ProcFs.RemoveProcSubtree: runs alone, with the parent already found by its path; inode numbers are not modelled, and what a rundown does is the subject of the Rundown modules.
- ProcRemove.ProcFs.ProcMkdirData: the translation of a path into parent and name, and the number check and the empty-directory check, which appear as one parameter; name_to_int is not part of this model.
- ProcNames.SubdirInsert: red-black rebalancing itself; any tree with the same items in order is allowed.
- ProcRemove: proc_create_mount_point, whose error path lowers an nlink it never raised.
- Pagemap: unstable huge-page entries, permission checks, and failing user copies; walk_page_range is taken as an ordered partition of its range that stops at a non-zero result.
- Cmdline: memory and areas that change between two reads, failing user copies, and negative results of access_remote_vm.
- Readdir: the instantiation of directory entries in the dentry cache, and the reuse of a pid by another process between two looks, which never affects a process that stays.
- Phases, Library, ReadersWriters: printing, thread creation and joining.
- Library: two looks of a reader at the library are not related to each other.
- zad3 and zad5 (their condition tests the wrong count), the deliberately broken copies, the ring buffers of cw03 and cw06 and the system calls of cw07 are not modelled: they are of the same kinds as what is modelled, or nothing of interest holds of them.
