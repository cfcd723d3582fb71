# mixv6: a Dafny model of the memory manager, the process table and the file system

mixv6 is a small x86 kernel. This project models the parts of it in which a mistake in one place shows up
somewhere else: the page allocator and the two-level page tables built from its pages, `fork` and `execv` on top
of them, the process and open-file tables, and the disk image that `mkfs` writes and the kernel reads back.

The project verifies with `dafny verify dfyconfig.toml` (Dafny 4.11).

## How the model is laid out

**Memory.** `Memory` has bytes, words and pages; `Paging` has the address arithmetic, the state and its invariant.
A `Machine` (`Kalloc.dfy`) holds physical memory, an array of pages, and `coremap`; ghost fields give every page one owner
(free list, directory, page table, user frame, kernel stack, page in hand, left behind by `freevm`) and give every
directory its abstract translation. The invariant `Paging.Good` ties the three together: the links in the free pages
run through exactly the free pages, every directory and table word encodes the translation, every page claimed by
an address space is really referred to by it. `Steps` holds the elementary updates; `Mapping`, `Unmapping`, `KernelMap`,
`Growing`, `Forking` and `Loading` say what each function of `vm.c` achieves as relations between two states; `Vm` and
`UserMemory` are the functions themselves, loops and all. `Virtual` is user memory as bytes by virtual address.
`Elf`, `Strings`, `UserStack` and `Exec` build a program's memory.

`Losses` counts what `freevm` leaves behind.

**Processes.** `ProcTable` has the process and file tables and the kernel invariant `Steady`; `Files` has the class
`Kernel` with the global variables and tables. `Sched`, `SwitchCalls`, `ProcCalls`, `ForkCall`, `ExecCall`, `ReadCall` and `Boot`
are the functions of `proc.c`, `file.c` and the system calls, each a method that updates those variables. `UserMode`
is a store made by a user program. `KernelMem` keeps memory and process table in step. `WholeMachine` states the page
partition and its conservation.

**Files.** `Disk` has sectors, inodes and directories; `BlockCache` is `bio.c`; `Inodes` is `inode.c`; `FreeChain` and
`MkFs` are `mkfs.c`; `RoundTrip` connects the writer and the reader. `Naming` shows that the inode table never
fills.

**Runs.** `CallerArgs` fetches paths and argument vectors from the caller's memory, `PathCalls` is `open` and `execv` from
there on. `Effects` says for every event, an interrupt, a wakeup, a user store or a system call, how the state after it
follows from the state before. `Runs` has methods that let events happen, from power-on if wanted, and return the trace
of states; `Traces`, `OpenFiles`, `Waiting` and `Programs` prove what holds over every such trace. `Outcomes`
says what the events lead to field by field and byte by byte, without the functions that compute it; `ElfLayout` and
`DiskLayout` do the same for the formats.

System calls are atomic except where they call `sched`. Where the source panics, the method has a precondition with the
panic named beside it, and the callers prove it; so these panics are not reached from the calls that are modelled.

## What turned out worth knowing

- `freevm` returns only the tables of directory slots from 256 up. 128 kernel page tables are lost for every zombie that
  is collected (an exit alone loses nothing yet) and for every `execv` that succeeds. A `fork` that fails in `palloc` loses
  nothing; one that fails later, or an `execv` that fails after it has seen an ELF header, loses the kernel tables built
  until then: with F free pages at `setupkvm`, `Losses.AfterFailure` says that 0, 1 or F - 128 are left. The account has a
  class of its own for these pages (`Retired`); conservation counts them (`WholeMachine.Conserved`, `Traces.RunConserves`).
- `sched` overwrites the cursor its own scan is based on. The scan still finds a process if there is one
  (`Sched.ScanComplete`), but it is not fair: with slots 1 and 5 able to run and the cursor at 61 it picks slot 1 and the same
  cursor again, so slot 5 never runs (`Sched.SlotFiveStarves`, `Waiting.TicksStarve`).
- `deallocuvm` skips to the next directory slot by an addition that wraps to 0 in the last slot: the skip moves forward
  exactly below `USEREND` (`Vm.SkipAdvances`), and every caller stays there.
- The kernel's `strlen` counts the NUL, and `execv` adds one more: each argument takes its length plus 2 bytes and one byte
  behind the string is copied too.
- `mkfs` calls `balloc(512)` for the root directory and for the free list, in bytes where the function counts blocks: 512 blocks
  each. `MkFs.ImageFits` counts them.
- With fewer than 16 files the empty path matches the first unused directory entry, whose inode number is 0. In the running
  kernel that is not block 0 but the console: `fsinit` makes the console's inodes with `ialloc`, which leaves their number 0,
  and `iget(0)` finds the first of them (`RoundTrip.EmptyPathConsole`).
- The inode table never fills although `close` and `execv` give no inode back: at most 17 numbers can be looked up, and each is
  in the table once (`Naming.RoomAlways`). So the panic in `getrootdir` is not reached.
- Where comments and code differ, the model follows the code: the comment above `copyuvm` names a closed interval, the loop a
  half-open one.

## Model

| member | source | states |
|---|---|---|
| Vm.AddressParts | kernel/mm/vm.h:34-36 | PGADDR(PDX(va), PTX(va), offset) is va for every 32-bit address |
| Vm.PartsOfAddress | kernel/mm/vm.h:34-36 | PDX, PTX and the offset take apart what PGADDR builds, for all indexes in range |
| Vm.EncodeDecode | kernel/mm/vm.h:39-40 | PTE_ADDR and PTE_FLAGS undo pa, flags and P put together, and such an entry is present |
| Vm.SkipAdvances | kernel/mm/vm.c:196-202 | the skip to the next directory slot moves forward if and only if va is below USEREND; from there on it wraps to 0 |
| Memory.PutBytesAt | lib/string.c:10-13 | a copy into a page changes the bytes copied and no other, for pages kept as little-endian words |
| Memory.LittleEndian | lib/string.c:10-13 | the bytes of a word have the weights 1, 256, 65536 and 2^24 from the lowest address up |
| Allocator.Kalloc | kernel/mm/kalloc.c:26-37 | returns the page freed last and unlinks it, or 0 exactly when no page is free; the list stays threaded through exactly the free pages |
| Allocator.Kfree | kernel/mm/kalloc.c:39-53 | the page becomes the head of the list, clear but for its link, and nothing else changes |
| Allocator.Kinit | kernel/mm/kalloc.c:15-23 | every page from kernel_end to MEMSIZE is on the list once, in order, and the kernel's pages are not written |
| Allocator.ListIsThreaded | kernel/mm/kalloc.c:26-53 | following the links in memory from coremap meets exactly the free pages, the last freed first, and then null |
| Allocator.FreeListExact | kernel/mm/kalloc.c:39-53 | no page is on the list twice, and a page is on it exactly when the account says it is free |
| Allocator.FreePagesClear | kernel/mm/kalloc.c:39-53 | a free page is clear but for the link in its first word |
| Allocator.FreeThenAlloc | kernel/mm/kalloc.c:26-53 | allocating after freeing gives the same page back and restores the list |
| Vm.WalkPgdir | kernel/mm/vm.c:300-320 | the address of the entry for va, or null; with isalloc a missing table is added, cleared, and no translation changes |
| Vm.MapPages | kernel/mm/vm.c:322-345 | maps exactly the pages of [va, va + size) to consecutive frames with flags and P, changes no other translation, and fails only when a table is missing and no page is free |
| Vm.PteOfPage | kernel/mm/vm.c:300-320 | the word found by walking the tables in memory is present exactly for mapped pages and decodes to their frame and flags |
| Vm.SetupKvm | kernel/mm/vm.c:48-72 | succeeds if and only if 129 pages are free, takes exactly these, and maps [0, MEMSIZE) to itself, never for the user, writable except [EXTMEM, rodata_end); failure changes nothing in use and leaves exactly one page free, none if there was none |
| Losses.FreeAgain | kernel/mm/vm.c:261-273 | dismantling a new address space gives back every page it took but the kernel tables, one per directory slot below 256 that was filled, and exactly these pages are lost |
| KernelMap.BuildingDone | kernel/mm/vm.c:48-72 | the three regions of kmap add up to the whole kernel half at the cost of 128 tables and a directory |
| Vm.AllocUvm | kernel/mm/vm.c:155-182 | all or nothing: success exactly when frames and missing tables are free, with clear user pages up to the new end; failure restores every translation and returns every frame, keeping only page tables of the range asked for |
| Growing.GrownCost | kernel/mm/vm.c:155-182 | growing takes exactly one page per user page and one per table that was missing |
| Growing.GrownUndone | kernel/mm/vm.c:165-170 | unmapping after a failure in the middle of the loop gives back the old translation whatever had been mapped so far |
| Vm.DeallocUvm | kernel/mm/vm.c:184-212 | skipping directory slots without a table, it unmaps and frees exactly the present pages from the rounded new end to the old one, as a page-by-page walk would |
| Vm.FreeVm | kernel/mm/vm.c:261-273 | frames, user tables and the directory are free again, kernel tables are left behind, no other page changes owner or contents |
| Vm.CopyUvm | kernel/mm/vm.c:113-149 | with n pages, succeeds if and only if 129 + n + ceil(n / 1024) pages are free, and then the child has the same pages, flags and contents on fresh frames; on failure nothing in use has changed and all but the kernel tables built is free again: F - 128 of F pages, one if F is 129 or less |
| Forking.CopyDone | kernel/mm/vm.c:113-142 | kernel half plus page-by-page copies make a complete copy of the address space |
| Forking.FreshCost | kernel/mm/vm.c:124-140 | n user pages in an empty user half cost n frames and ceil(n / 1024) tables |
| Virtual.ForkCopies | kernel/syscall/fork.c:13-29 | right after the copy every user address shows the same byte and flags in parent and child, on a page that was free before |
| Virtual.FramesDiffer | kernel/mm/vm.c:322-345 | two user pages, of one address space or of two, never share a frame |
| Virtual.Isolation | kernel/mm/vm.c:219-247 | whatever is written through one address space, every byte of every other stays the same |
| UserMemory.CopyOut | kernel/mm/vm.c:219-247 | the page-by-page loop has the effect of one flat write: bytes [va, va + len) become src or zero, no other byte of any address space changes |
| Virtual.WroteNext | kernel/mm/vm.c:224-246 | a chunk written behind the last one extends the flat write by exactly its bytes |
| UserMemory.LoadUvm | kernel/mm/vm.c:83-105 | the bytes [offset, offset + size) of the file appear at va, or -1 exactly when the file is too short |
| UserMemory.UStack | kernel/mm/vm.c:251-259 | two more clear pages, the lower one closed to the user; 0 exactly when they do not fit or too few pages are free, and then only page tables of these two are kept |
| UserMemory.InitUvm | kernel/mm/vm.c:75-81 | one user page at KERNEND holding the code and then zeros |
| FileSpec.ReadWithin | fs/inode.c:116-122 | a read delivers all that is asked for if and only if it stays within the file and does not start at the largest possible size |
| FileSpec.ReadIsLesser | fs/inode.c:116-122 | a read delivers the lesser of what is asked for and what is left, and is refused exactly when it starts behind the end, wraps around, or starts behind the 124th sector |
| Strings.StrLen | lib/string.c:28-33 | one more than the length of the C string |
| Strings.StrCmp | lib/string.c:15-26 | 1 exactly when the strings agree up to their ends or the limit |
| Elf.ImageOfDisjoint | kernel/syscall/execv.c:42-59 | with disjoint segments every address shows the one segment that covers it, file bytes then zeros, and zero where there is none |
| Elf.ImageBelowEnd | kernel/syscall/execv.c:41-53 | above the highest segment end seen so far nothing is loaded |
| ElfLayout.HeaderDecoded | include/elf.h:27-36 | the loader reads the words that stand in the file at the offsets of struct proghdr |
| ElfLayout.ProgramsAccepted | kernel/syscall/execv.c:28-60 | a file with given header words is executable if and only if every segment to be loaded is no shorter in memory than in the file, starts at a page, lies in the file and leaves three pages below USEREND |
| ElfLayout.ImageShowsSegments | kernel/syscall/execv.c:42-59 | given the header words, each address shows byte off + j of the file for the last segment that covers it, zero behind the file part, and zero where there is none |
| Outcomes.AcceptedOutcome | kernel/syscall/execv.c:12-119 | execv of such a file succeeds if and only if its headers are fine and the pages up to the top that they ask for, their tables and the kernel half are free |
| Outcomes.ProgramOutcome | kernel/syscall/execv.c:62-113 | the program starts at the entry point word with esp at the return address, argc and vector, its strings read back, its segments in memory, all of its region but the guard page writable, and the rest of its slot as before |
| Exec.LoadSegment | kernel/syscall/execv.c:42-59 | one program header: checks, room, file bytes, cleared rest; afterwards user memory is the image of the headers so far; it fails only for a bad header or too few pages |
| UserStack.StackReadsBack | kernel/syscall/execv.c:81-100 | entry i of the vector the new program finds points at a NUL-terminated copy of argument i, entry argc is null |
| UserStack.SpDescends | kernel/syscall/execv.c:83-89 | each string lies below the one before and does not overlap it, and the stack pointer stays aligned |
| Exec.WriteStack | kernel/syscall/execv.c:79-100 | above the stack pointer: 0xFFFFFFFF, argc, the vector and the strings, no later push over an earlier one; below it still the image; the guard page closed to the user |
| Exec.BuildProgram | kernel/syscall/execv.c:28-100 | succeeds if and only if the file is executable and enough pages for image, guard page, stack and tables are free; failure changes nothing in use and loses no page if the file is no ELF file, else exactly the kernel tables built |
| Exec.GuardUntouched | kernel/mm/vm.c:251-259 | an argument block of at most a page leaves the guard page clear and everything below it as the image has it |
| Loading.CostAdds | kernel/syscall/execv.c:52-63 | growing the new space piece by piece takes as many pages as growing it at once |
| ExecCall.Execv | kernel/syscall/execv.c:12-119 | installs the new program completely, frees the old space, loads the new directory before that, or returns -1, the caller's tables and memory are untouched, and exactly the kernel tables built are lost |
| ExecCall.DismantleApart | kernel/syscall/execv.c:102-105 | freeing the old address space changes no byte of the new one |
| ExecCall.CallerUndisturbed | kernel/syscall/execv.c:83-89 | while the new program is built no byte of the caller's memory changes, so the arguments are the same whenever they are read |
| ExecCall.InstalledFrom | kernel/syscall/execv.c:102-111 | image and argument block are still in place when the process returns to user mode |
| Files.FGet | fs/file.c:34-40 | one more reference to the entry |
| Files.FAlloc | fs/file.c:42-54 | the first entry nobody refers to, or none exactly when all are referred to |
| Files.FFree | fs/file.c:56-66 | one reference less |
| Files.FDup | fs/file.c:68-76 | one reference more |
| Files.FdAlloc | kernel/proc.c:151-160 | the lowest free descriptor of the running process, or -1 exactly when there is none |
| Files.FilesStep | fs/file.c:34-76 | counts that move with the descriptors of one process stay equal to the number of descriptors open on each entry |
| ProcTable.OpenMeansCounted | fs/file.c:42-54 | an entry some descriptor is open on is never handed out again |
| ProcCalls.PAlloc | kernel/proc.c:78-121 | the first unused slot, set aside with a pid, a clear stack page and the console open; or nothing taken |
| ProcCalls.PFree | kernel/proc.c:123-149 | descriptors released, address space and stack free again but for the kernel tables, slot unused, everything else untouched |
| ProcCalls.CollectZombies | kernel/proc.c:284-293 | exactly the zombie children of the caller are freed: their stacks, directories, frames and user tables are free again, their kernel tables are lost, no other page changes |
| ProcCalls.Open | kernel/syscall/open.c:6-27 | the first free entry, at offset 0, in the lowest free descriptor; -1 exactly when there is no file, entry or descriptor, and then nothing has changed |
| ProcCalls.Close | kernel/syscall/close.c:5-14 | the descriptor is closed and its reference dropped; the console's cannot be closed |
| ForkCall.Fork | kernel/syscall/fork.c:8-48 | succeeds if and only if a slot and 1 + 129 + n + ceil(n / 1024) pages are free, and takes exactly these; the child, in the first unused slot, is a copy that shares the open files and returns 0; on failure no live process has changed and the free list is as long as before, or short of the kernel tables built |
| Outcomes.ForkOutcome | kernel/syscall/fork.c:8-43 | with a slot and pages the child, in the first unused slot, has eax 0, the parent's eip, esp, size, descriptors and memory byte for byte, the caller as its parent, and can run; all other slots are as before |
| Outcomes.ForkRefused | kernel/syscall/fork.c:44-47 | without them no slot in use changes and at most 128 pages are lost |
| ForkCall.DupFiles | kernel/syscall/fork.c:31-36 | the child's descriptors are the parent's, each with one more reference |
| ForkCall.ForkFail | kernel/syscall/fork.c:44-47 | after a failed copy, pfree gives the stack back, file counts are as before, and of F pages that were free before palloc 1 + AfterFailure(F - 1) are free |
| ReadCall.Read | kernel/syscall/read.c:6-22 | the bytes at the file's offset are in the caller's memory and the offset has moved behind them; -1 with nothing changed for a bad descriptor, pointer or size; only as much memory as is read has to be there |
| ReadCall.ReadsFollowOn | kernel/syscall/read.c:16-18 | two reads deliver consecutive pieces, as one read of both would |
| ReadCall.ReadsDeliverFile | kernel/syscall/read.c:16-18 | reads of any positive sizes from the start deliver a file of fewer than 124 * 512 bytes piece by piece, all of it in order, and then, and only then, return 0 |
| SwitchCalls.Scan | kernel/proc.c:198-203 | the loop that overwrites its own cursor computes the scan function |
| Sched.ScanComplete | kernel/proc.c:198-203 | from every cursor the scan ends with a process in the wanted state if and only if there is one |
| Sched.SchedSafe | kernel/proc.c:192-236 | a zombie is never chosen and never goes on, a sleeper is chosen only by a zombie with nothing to run, the cursor stays in range, the chosen directory is loaded; stuck exactly when nobody is left |
| Sched.SchedExact | kernel/proc.c:192-236 | with the cursors of the scan written out as a sequence, the process at the last hit runs and the cursor is the index of that hit; the caller stays exactly if that is itself, or if there is no hit and it is no zombie |
| Sched.GivesWay | kernel/proc.c:192-236 | if anybody can run, the process chosen can, and a caller that cannot run itself is switched away from |
| Sched.StuckChoice | kernel/proc.c:198-203 | sched changes nothing if and only if the last hit is the caller's slot at the index that is the cursor already |
| Sched.SlotFiveStarves | kernel/proc.c:198-203 | an input for which it does although another process can run |
| SwitchCalls.SchedCall | kernel/proc.c:192-236 | sched computes that step on the process table |
| Outcomes.TimerOutcome | kernel/proc.c:192-236 | a tick hands the processor to the process at the last hit, and afterwards one that can run runs if there is one |
| SwitchCalls.Sleep | kernel/proc.c:238-247 | the caller sleeps on its channel and sched has decided who goes on; the kernel invariant holds |
| Sched.WakeupSafe | kernel/proc.c:249-260 | wakeup, which does not look at the state, only ever wakes sleeping processes of its channel |
| SwitchCalls.Exit | kernel/syscall/exit.c:5-20 | the caller is a zombie, its parent awake, sched has decided who runs, and the call does not return to the caller, so the panic behind sched is not reached |
| Outcomes.ExitOutcome | kernel/syscall/exit.c:5-20 | the caller is a zombie, whoever slept on its parent's slot can run with no channel, all other slots are as before, and sched has chosen |
| Outcomes.SleepOutcome | kernel/proc.c:238-247 | the caller sleeps on the channel, in wait on its own slot, nothing else changes, and sched has chosen |
| Outcomes.WakeOutcome | kernel/proc.c:249-260 | exactly the sleepers on the channel can run afterwards |
| Outcomes.CloseOutcome | kernel/syscall/close.c:5-14 | the descriptor is free, its entry has one reference less and keeps inode and offset, all else is as before |
| Outcomes.StoreOutcome | kernel/mm/vm.c:48-53 | a store changes the byte at its address and no other if the page has P, W and U, else nothing |
| Outcomes.PointersAccepted | kernel/syscall/arg.c:11-15 | a pointer is taken if and only if, as an int, it is above KERNEND |
| Outcomes.PointerRefused | kernel/syscall/arg.c:11-15 | open, execv and read with another pointer change nothing |
| Waiting.SleepsUntilWoken | kernel/proc.c:238-260 | over a run a sleeper's slot stays as it is until its channel is woken |
| Waiting.WaitFreesChild | kernel/syscall/wait.c:3-8 | a parent that waits sleeps until its child exits, can run from then on, and its collection frees the child's slot, stack and address space, the child staying a zombie with all its memory until then |
| Waiting.TicksStarve | kernel/proc.c:198-203 | from that input no number of ticks lets the other process run |
| Boot.UInit | kernel/proc.c:47-68 | slot 1 runs with the boot program visible at KERNEND and its stack pointer at the page end, in a machine that satisfies the kernel invariant, at the cost of 132 pages |
| Runs.FirstProcess | kernel/proc.c:47-68 | the first process starts at 0x40000000 with its stack at 0x40001000, size 32, pid 0, no parent and the console open; all slots from 2 up are unused |
| Boot.Start | kernel/main.c:5-22 | from arbitrary memory contents boot establishes the kernel invariant with one process and without losing a page |
| UserMode.UserStore | kernel/mm/vm.c:48-53 | a user-mode store succeeds exactly on mapped pages with U and W and then changes one byte of the running process; the kernel half and the guard page fault |
| UserMode.StoreBits | kernel/mm/vm.c:48-53 | a user store needs all three low bits of the entry |
| UserMode.KernelWords | kernel/mm/vm.c:22-72 | the words of the kernel half: every page of memory mapped to itself and closed to the user, and not writable from 1 MB to rodata_end |
| UserMode.OthersUndisturbed | kernel/mm/vm.c:219-247 | what the running process writes no other process sees |
| WholeMachine.Partition | kernel/mm/kalloc.c:15-53 | each page from kernel_end up is on the free list, or one process's stack, directory, page table or frame as read from the tables in memory, or left behind by freevm, and only one of these, once; how many were left behind is in WholeMachine.Conserved |
| WholeMachine.Conserved | kernel/mm/kalloc.c:15-53 | the pages from kernel_end up are as many as those on the free list, those of all slots (a stack, a directory, the page tables, one frame per page of the size) and the kernel tables lost, together |
| WholeMachine.UseIsAccounted | kernel/mm/vm.c:261-298 | every reference found in the process table, a directory or a page table is to a page the account gives to that process |
| WholeMachine.LoadedDirectoryOwned | kernel/mm/vm.c:278-298 | the directory in cr3 is always the running process's own, with the kernel half in place |
| WholeMachine.RegionsContiguous | kernel/syscall/execv.c:107 | in every live process the user pages are exactly those of [KERNEND, KERNEND + size), which is what copyuvm relies on |
| WholeMachine.RegionBytes | kernel/syscall/execv.c:107 | the user addresses of a live process are exactly those whose page begins in [KERNEND, KERNEND + size) |
| PathCalls.OpenPath | kernel/syscall/open.c:6-27 | the string in the caller's memory is looked up and the file opened, or -1 exactly for a null pointer, an absent name, or no entry or descriptor; the inode keeps its reference even then |
| PathCalls.ExecPath | kernel/syscall/execv.c:12-119 | the file named by the string in the caller's memory runs with the arguments in the caller's memory, or -1 with nothing changed but inode references and, after an ELF header, kernel tables lost |
| CallerArgs.FetchString | kernel/syscall/arg.c:11-15 | the bytes up to the first NUL, and none exactly when no string ends in user memory |
| CallerArgs.FetchArgs | kernel/syscall/execv.c:82-89 | the strings whose addresses stand in the vector up to its null word, at most 15, and none exactly when vector or strings are not all in user memory |
| Runs.Happen | kernel/proc.c:192-293 | every event has exactly the effect that `Effects.Effect` says and keeps the kernel invariant; it stops the kernel only if it is an exit that leaves nobody running or asleep |
| Runs.Run | kernel/proc.c:192-293 | a trace of states, each in order and each the effect of one event on the one before, up to the end or to an exit that leaves nobody |
| Runs.PowerOn | kernel/main.c:5-22 | from arbitrary memory and any disk with a root directory: boot, then any sequence of interrupts, wakeups, user stores, forks, execs, exits, waits, opens, closes and reads, with such a trace, whose first state is the booted machine |
| Traces.StepKeeps | kernel/syscall/fork.c:8-48 | an event leaves every process that does not cause it, and is not collected by it, its slot's identity and every byte of its memory; a zombie it leaves altogether as it is |
| Traces.Untouched | kernel/mm/vm.c:113-149 | over any stretch of a run the memory of a process changes only by its own stores, execv and reads |
| Traces.ZombieUntilCollected | kernel/proc.c:284-293 | a zombie and its memory stay as they are until the process in its parent's slot collects it |
| Traces.StepLoses | kernel/mm/vm.c:261-273 | each event loses exactly 128 pages per zombie collected or program replaced, what a failed fork or execv does not give back, and nothing otherwise |
| Traces.RunConserves | kernel/mm/kalloc.c:15-53 | at every moment of every run from boot the managed pages are those free, those held by processes, and those lost in the steps so far |
| OpenFiles.OpenFileStays | fs/file.c:34-76 | as long as an entry of the file table is referred to, it shows the same file, through any opens, closes, forks, exits and execs |
| OpenFiles.OffsetStep | kernel/syscall/read.c:16-18 | the offset of an open entry moves by nothing but a read through a descriptor on it, and by exactly the bytes that this delivers |
| OpenFiles.ReadDelivers | kernel/syscall/read.c:6-22 | read from such an entry puts the file's bytes at the offset into the caller's memory |
| Programs.ExecRunsFile | kernel/syscall/execv.c:12-119 | on the image that mkfs writes, execv of a path in the caller's memory that spells a file's name runs the bytes mkfs was given for it, with the arguments in the caller's memory |
| Programs.FileBecomesProgram | kernel/syscall/execv.c:12-119 | if that file is an ELF file with given header words, the call succeeds if and only if these are fine and there are pages enough, and then its segments and the arguments are in memory |
| Programs.OpenFindsFile | kernel/syscall/open.c:6-27 | on that image, open of such a path gives a descriptor that shows these bytes from offset 0 |
| Programs.FirstProgram | kernel/proc.c:30-44 | the execv in the boot program, as it lies in the memory of the first process, runs the file named shell of the image |
| BlockCache.Cache.BGet | fs/bio.c:11-35 | the buffer in use for the block, or the first that nobody holds; at most one buffer is in use per block although all tags start as 0; never out of buffers while fewer than 256 are held |
| BlockCache.Cache.BRead | fs/bio.c:37-49 | a valid buffer with the contents of the block, also through the shortcut for shared buffers |
| BlockCache.Cache.BWrite | fs/bio.c:51-60 | the block on the disk is what the buffer holds; what readers see does not change |
| BlockCache.Cache.BRelse | fs/bio.c:62-65 | one holder less, with nothing unwritten lost |
| BlockCache.PendingShared | fs/bio.c:37-43 | a block with unwritten changes is held, so bread adds a holder and never reads it again from the disk |
| BlockCache.RoomLeft | fs/bio.c:22-34 | while fewer than 256 buffers are held one can be taken |
| BlockCache.RunClients | fs/bio.c:11-65 | over any sequence of requests each one is answered as a plain disk would answer it, and refused only if all buffers are held, the block does not exist, the buffer is not held, or a change would be lost; once all buffers are released the disk holds what was written |
| BlockCache.Serve | fs/bio.c:11-65 | one request: buffers held, block contents and unwritten blocks after it follow from those before |
| BlockCache.ReadsLastChange | fs/bio.c:11-65 | a read returns what was last put into the block, whatever was read, written, released and evicted in between |
| Inodes.FileSystem.IGet | fs/inode.c:39-72 | the entry that has the inode with one more reference, or a new one read from the disk, or none exactly when the table is full |
| Inodes.GottenOk | fs/inode.c:39-72 | a non-zero inode number is in the table at most once and its entry agrees with the disk |
| Inodes.FileSystem.IRelse | fs/inode.c:74-87 | one reference less, or the entry is unused |
| Inodes.GetThenDrop | fs/inode.c:190-195 | taking an inode and giving it back leaves every entry in use as it was |
| Inodes.FileSystem.ReadI | fs/inode.c:101-131 | the bytes [offset, offset + r) of the file through the blocks of its inode, with r as the checks on offset and size say; no buffer is kept |
| Inodes.FileSystem.DirLookup | fs/inode.c:169-177 | the inode of the first entry whose name matches, or none |
| Inodes.FileSystem.NameI | fs/inode.c:180-200 | the inode table and the inode that the lookup function gives: the root directory for a leading slash, else the first entry of the root directory with that name, or none |
| Inodes.LookedUp | fs/inode.c:190-199 | giving back the root inode before the lookup does not change what the lookup finds |
| Naming.RoomAlways | fs/inode.c:39-72 | an inode table with the console and looked-up inodes only always has an unused entry |
| Naming.LookupKeeps | fs/inode.c:180-200 | a lookup keeps the table so, and finds nothing if and only if the directory has no such entry |
| Naming.SlashIsRoot | fs/inode.c:190-193 | a leading slash gives the inode of the root directory |
| Naming.LookupStays | fs/inode.c:180-200 | a lookup leaves every inode in use in its place |
| MkFs.IAlloc | mkfs.c:185-194 | the first free inode block; the blocks in use stay a prefix |
| MkFs.BAlloc | mkfs.c:196-207 | a run of blocks none of which was in use; the blocks in use stay a prefix |
| MkFs.RunsDisjoint | mkfs.c:126-137 | no block belongs to two files, or to a file and the root directory |
| MkFs.AddFile | mkfs.c:101-140 | directory entry, inode and data of one file; it gives up exactly when the file has more than 124 blocks; all else stays as it was |
| MkFs.EntryFilled | mkfs.c:107-108 | filling in a directory entry leaves the other entries alone |
| MkFs.Build | mkfs.c:54-183 | the image holds superblock, kernel, root directory, all files and both free chains, if and only if no file is too long |
| DiskLayout.SuperblockBytes | include/fs/super.h:5-12 | the bytes of the superblock of the image |
| DiskLayout.FileOnDisk | include/fs/directory.h:9-14 | the bytes of directory entry, inode and data blocks of each file of the image |
| FreeChain.WriteChain | mkfs.c:142-172 | the loop leaves each number in its word, zero behind the last, and writes only blocks of the chain's own range |
| FreeChain.ChainEnumerates | mkfs.c:147-156 | a reader that follows entry 127 meets head, head + 1, up to the end, each once, and then a zero |
| RoundTrip.FreeLists | mkfs.c:142-172 | both chains of the image, from the heads in the superblock, enumerate head..2047 and head..8191 |
| RoundTrip.FreeIsUnused | mkfs.c:142-172 | no number on a chain is the inode or a block of a file |
| RoundTrip.SameNamePadded | lib/string.c:15-26 | the kernel's comparison of a path with a name as strncpy pads it succeeds if and only if the path spells the name |
| RoundTrip.FindFile | fs/inode.c:169-177 | the name of file i is found in entry i |
| RoundTrip.FindNothing | fs/inode.c:169-177 | a name that is not in the image is not found, if it is not empty or there are 16 files |
| RoundTrip.AbsentName | fs/inode.c:169-177 | for a name that is not in the image: it is not found if and only if it is not empty or there are 16 files |
| RoundTrip.EmptyPath | fs/inode.c:169-177 | with fewer than 16 files the empty path matches the first unused entry, whose number is 0 |
| RoundTrip.EmptyPathConsole | fs/inode.c:39-50 | in the running kernel the empty path then leads to slot 0 of the inode table, the console's inode |
| RoundTrip.PathMeaning | fs/inode.c:180-200 | what a path means to a running kernel on the image: the file of that name with the bytes mkfs was given, or nothing if and only if there is no such file and the empty path does not match |
| RoundTrip.FileReadsBack | fs/inode.c:101-131 | the inode mkfs wrote for file i can be read and holds exactly the file's bytes |
| RoundTrip.ReadNamed | fs/inode.c:101-200 | in a running kernel, whatever the cache and the inode table hold, the name of file i leads to its bytes |
| RoundTrip.BuildThenRead | mkfs.c:54-183 | building an image and then looking up and reading a file gives the file, for up to 16 files with distinct names shorter than 28 bytes |

## Left out

- Memory, process table, file table, buffers, inode table and mkfs's two buffers are arrays whose elements are values: an update
  of one field of an element is a store of the whole element. Pointers into these arrays are indexes.
- The ghost owner of a page is the model's own account. `WholeMachine.Partition` states its result without it, from the
  words in memory and the process table.
- The disk behind the cache is a sequence of sectors that `iderw` replaces one at a time.
- Locks, `pushcli` and interrupts inside a call: calls are atomic except at `sched`, and `iderw` is one step.
- The kernel stack of a switch (`swtch`, contexts), the trap path and the registers other than eax, eip and esp; the trap frame is
  a field of the process instead of a part of its stack page.
- Port input and output, IDE, timers, keyboard, console, boot loader, segments and the TSS; `switchuvm` is the load of cr3.
- The translation cache and the accessed and dirty bits of the hardware.
- `cwd`: the references it holds to the inode of the root directory; and exact counts of inode references. close and execv do
  not give inodes back.
- Devices as files (execv of the console, which the empty path can name, fails at once instead of reading it), `writei` and `sys_write`, and the system calls that only return -1.
- Fairness is not a property of `sched`: `Sched.SlotFiveStarves` is an input for which a process that can run never does, and
  `Sched.StuckChoice` says when the choice does not change. That a wait is ever over depends on a wakeup after it
  (`Waiting.SleepsUntilWoken`): a child can exit before its parent goes to sleep.
- Reference counts and pids are unbounded numbers, not 16 and 32 bits wide.
- Exec.LoadSegment: requires that a segment that gets as far as writing memory lies at or above KERNEND; the source writes over
  the kernel otherwise. Headers behind one that stops execv, and files that are no ELF files, are not restricted.
- Exec.WriteStack: requires at most 15 arguments, where the source writes behind its vector, and that the argument block fits
  the user pages of the new program, where copyout panics.
- Exec.BuildProgram: requires the same of segments and arguments.
- ExecCall.Execv: the file and the arguments are byte sequences; `PathCalls.ExecPath` takes them from the disk and from the
  caller's memory.
- ProcCalls.Open: the inode is a parameter; `PathCalls.OpenPath` looks it up.
- PathCalls.OpenPath: a path that is not a string in user memory (the kernel faults) opens nothing.
- PathCalls.ExecPath: the same for path and arguments, and for a program with a segment below KERNEND or arguments that do not
  fit (see Exec.LoadSegment and Exec.WriteStack). Argument strings below KERNEND count as not there.
- System call arguments are taken as values; that they lie on the user stack is not modelled.
- ProcCalls.Close: requires that a descriptor from 2 up is open; the source panics in `ffree` otherwise.
- ReadCall.Read: requires that the pages that what is read goes to are mapped, else copying faults, and that the file's inode is in
  the table and is no device.
- Vm.DeallocUvm: requires old at or below USEREND and new at or above KERNEND, where the loop ends and frees user frames only.
- Boot.UInit: requires 132 free pages; the source panics without them, or runs a process without code.
- MkFs.Build: requires at most 16 files and that all blocks asked for fit the disk; the source writes behind its arrays otherwise.
  Files are byte sequences; opening and sizing them is not modelled.
- Inodes.FileSystem.NameI: requires that the directory entries name blocks of the disk and that there is room for the root inode,
  where the source panics.
- Inodes.FileSystem.ReadI: requires that the blocks of the file are on the disk and that it is no device.
- Runs.Happen: a close of a descriptor that is not open, and a read that Read does not allow, do not happen.
- sys_wait is the two events `WaitEvent` and `CollectEvent` of `Runs`: between them the process is in the sleep loop.
