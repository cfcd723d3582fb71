/** kernel/main.c and uinit: from memory as the loader leaves it to the first process. */
module Boot {
  import opened Memory
  import opened Paging
  import opened Unmapping
  import opened KernelMap
  import opened Growing
  import opened Forking
  import opened Losses
  import opened Virtual
  import opened Loading
  import opened Allocator
  import opened Vm
  import opened UserMemory
  import opened UserStack
  import opened ProcTable
  import opened KernelMem
  import opened Files
  import opened ProcCalls
  import opened ForkCall
  import opened UserMode

  /** The program of the first process: execv("shell", 0), and exit for ever if that fails. */
  function InitCode(): seq<byte> {
    [0x6A, 0x00, 0x68, 0x19, 0x00, 0x00, 0x40, 0x6A, 0x00, 0xB8, 0x0B, 0x00, 0x00, 0x00, 0xCD, 0x40,
     0xB8, 0x01, 0x00, 0x00, 0x00, 0xCD, 0x40, 0xEB, 0xF7, 0x73, 0x68, 0x65, 0x6C, 0x6C, 0x00, 0x00]
  }

  /** The pages boot takes: a kernel stack, the kernel half, one user page and its table. */
  const BOOTCOST: nat := 1 + (KTABS + 1) + 2

  /** Slot 0 is the boot code's, the others are unused. */
  function NoProcs(): (proc: seq<Proc>)
    ensures |proc| == NPROC
  {
    seq(NPROC, i => ZeroProc())[0 := ZeroProc().(stat := ZOMB)]
  }

  /** The tables before the first process. */
  ghost predicate Fresh(k: KState) {
    && k.proc == NoProcs()
    && |k.file| == NFILE && k.file == seq(NFILE, f => File(0, None, 0))
                                      [STDIN := File(1, k.file[STDIN].inode, 0)]
                                      [STDOUT := File(1, k.file[STDOUT].inode, 0)]
    && k.forks == 0 && k.sched == 0 && k.nextpid == 0
  }

  /** Before the first process no page belongs to anyone. */
  lemma NothingYet(kend: nat, rodata: nat, proc: seq<Proc>, s: State)
    requires Good(kend, s) && FreedUpTo(kend, s, NP) && s.spaces == map[]
    requires proc == NoProcs()
    ensures MemInv(proc, s, rodata)
  {
    hide Good;
    ValidSizes(kend, s);
    forall i | 0 <= i < NPROC
      ensures SlotMem(s, rodata, i, proc[i])
    {
    }
  }

  lemma {:induction false} NoRefs(proc: seq<Proc>, f: nat)
    requires forall i :: 0 <= i < |proc| ==> proc[i].ofile == NoFiles()
    ensures Refs(proc, f) == 0
  {
    if proc != [] {
      NoRefs(proc[..|proc| - 1], f);
      FdRefsNone(NoFiles(), f);
    }
  }

  lemma FreshFiles(k: KState)
    requires Fresh(k)
    ensures FilesCounted(k.proc, k.file, 0)
  {
    forall f | 0 <= f < NFILE
      ensures Refs(k.proc, f) == 0
    {
      NoRefs(k.proc, f);
    }
  }

  /** The first process, in slot i, as uinit leaves it. */
  function FirstProc(pgdir: word, kstack: word): Proc {
    SetProc(0, kstack).(stat := RUN, pgdir := pgdir, size := |InitCode()|,
                        tf := TrapFrame(0, KERNEND, KERNEND + PAGESIZE))
  }

  /** The memory of the first process. */
  lemma FirstSpace(kend: nat, rodata: nat, proc: seq<Proc>, s1: State, s2: State, s3: State, p: Proc)
    requires MemInv(proc, s1, rodata) && proc[1].pgdir == 0 && p.kstack == proc[1].kstack && p.size == |InitCode()|
    requires p.pgdir % PAGESIZE == 0 && p.pgdir / PAGESIZE > 0 && Building(s1, s2, p.pgdir / PAGESIZE, rodata, NP)
    requires Grown(p.pgdir / PAGESIZE, s2, s3, UPAGE, [CodePage(InitCode())])
    requires Good(kend, s1)
    ensures MemInv(proc[1 := p], s3, rodata) && |s3.free| == |s1.free| - (KTABS + 1) - 2
    ensures RetiredPages(s3) == RetiredPages(s1)
  {
    hide Good, MemInv, Building, Grown, KernelHalf, UserTabs, InitCode, CodePage, OnlyInto, RetiredPages;
    CodeSize();
    var e, images := p.pgdir / PAGESIZE, [CodePage(InitCode())];
    NewSpaceBare(s1, s2, e, rodata);
    NewSpaceGrows(kend, s1, s2, s3, e, rodata, UPAGE, images);
    MemInvBuilt(proc, s1, s3, rodata, 1, p);
    NewSpaceLoses(s1, s3, e, rodata, UPAGE + 1);
  }

  lemma NewSpaceLoses(s0: State, s: State, e: nat, rodata: nat, top: nat)
    requires NewSpace(s0, s, e, rodata, top)
    ensures RetiredPages(s) == RetiredPages(s0)
  {
    hide KernelHalf, UserTabs, ForkCost;
  }

  /** Nothing is lost before the first process. */
  lemma NothingLost(kend: nat, s: State)
    requires Good(kend, s) && FreedUpTo(kend, s, NP) && s.free != []
    ensures |s.mem| == NP && |s.owner| == NP && s.head / PAGESIZE < NP && s.free[|s.free| - 1] < NP
    ensures RetiredPages(TakeStack(s, 1)) == {}
  {
    TakeStackKeeps(kend, s, 1);
  }

  lemma CodeSize()
    ensures |InitCode()| == 32 && CeilPage(32) == 1
  {
  }

  /** The user sees the program at KERNEND. */
  lemma CodeShown(d: nat, s2: State, s3: State, a: nat, code: seq<byte>)
    requires |code| <= PAGESIZE && Grown(d, s2, s3, UPAGE, [CodePage(code)]) && a == KERNEND
    ensures Shows(s3, d, a, code)
  {
    hide Grown;
    forall i | 0 <= i < |code|
      ensures ShowsByte(s3, d, a, code, i)
    {
      CodeByte(d, s2, s3, a + i, code);
    }
  }

  /** The page at KERNEND holds the code and then zeros, and the program may write to it. */
  ghost predicate FirstPage(s: State, d: nat, code: seq<byte>) {
    forall c: nat :: KERNEND <= c < KERNEND + PAGESIZE ==>
      && UserAddr(s, d, c) && UserWritable(s, d, c)
      && UserByte(s, d, c) == if c - KERNEND < |code| then code[c - KERNEND] else 0
  }

  lemma CodeByte(d: nat, s2: State, s3: State, a: nat, code: seq<byte>)
    requires |code| <= PAGESIZE && Grown(d, s2, s3, UPAGE, [CodePage(code)]) && KERNEND <= a < KERNEND + PAGESIZE
    ensures UserAddr(s3, d, a) && UserByte(s3, d, a) == if a - KERNEND < |code| then code[a - KERNEND] else 0
    ensures UserWritable(s3, d, a)
  {
    hide OwnersGrow, PutBytes, ZeroPage;
    SizesOfGrown(d, s2, s3, UPAGE, [CodePage(code)]);
    assert a / PAGESIZE == UPAGE && a % PAGESIZE == a - KERNEND;
    PutBytesAt(ZeroPage(), 0, code, a - KERNEND);
    ClearByte(a - KERNEND);
  }

  lemma ClearByte(k: nat)
    requires k < PAGESIZE
    ensures ByteAt(ZeroPage(), k) == 0
  {
  }

  lemma FirstPageFilled(d: nat, s2: State, s3: State, code: seq<byte>)
    requires |code| <= PAGESIZE && Grown(d, s2, s3, UPAGE, [CodePage(code)])
    ensures FirstPage(s3, d, code)
  {
    hide Grown, UserAddr, UserByte, UserWritable;
    forall c: nat | KERNEND <= c < KERNEND + PAGESIZE
      ensures UserAddr(s3, d, c) && UserWritable(s3, d, c)
      ensures UserByte(s3, d, c) == if c - KERNEND < |code| then code[c - KERNEND] else 0
    {
      CodeByte(d, s2, s3, c, code);
    }
  }

  lemma FirstSteady(kend: nat, rodata: nat, k0: KState, k: KState, s: State)
    requires Fresh(k0) && k.procp == 1 && |k.proc| == NPROC && |k0.file| == NFILE
    requires k.proc == k0.proc[1 := FirstProc(k.cr3, k.proc[1].kstack)] && k.cr3 != 0 && k.proc[1].kstack != 0
    requires k.forks == 0 && k.file == ConsoleRefs(k0.file) && k.sched == 0
    requires Good(kend, s) && MemInv(k.proc, s, rodata)
    ensures Steady(kend, rodata, k, s) && Awake(k)
  {
    hide Good, MemInv, FilesCounted;
    FreshFiles(k0);
    CountsAfterPAlloc(k0.proc, k0.file, 0, 1, k.proc[1]);
    forall i | 0 < i < NPROC
      ensures SlotSane(k.proc[i])
    {
    }
  }

  /** uinit, up to the switch to the first process. */
  method UInit(k: Kernel)
    requires k.m.Valid() && FreedUpTo(k.m.kend, k.m.View(), NP) && k.m.spaces == map[] && k.file.Length == NFILE
    requires Fresh(k.KView())
    requires |k.m.free| >= BOOTCOST // else panic("uinit: palloc"), panic("uinit: setupkvm"), or no code to run
    modifies k, k.proc, k.file, k.m.mem, k.m`coremap, k.m`free, k.m`owner, k.m`spaces
    ensures k.Valid() && Awake(k.KView()) && k.procp == 1 && k.proc.Length == NPROC
    ensures k.proc[..] == old(k.proc[..])[1 := FirstProc(k.cr3, k.proc[1].kstack)]
    ensures Shows(k.m.View(), k.cr3 / PAGESIZE, KERNEND, InitCode())
    ensures FirstPage(k.m.View(), k.cr3 / PAGESIZE, InitCode())
    ensures |k.m.free| == |old(k.m.free)| - BOOTCOST && RetiredPages(k.m.View()) == {}
  {
    hide Good, AllocOk, MemInv, FilesCounted, Building, Grown, Steady, InitCode, CodePage, Shows, FirstPage, TakeStack,
         FreedUpTo, RetiredPages;
    ghost var k0, s0, kend, rodata := k.KView(), k.m.View(), k.m.kend, k.m.rodata;
    NothingYet(kend, rodata, k0.proc, s0);
    NothingLost(kend, s0);
    var p := PAlloc(k);
    assert p == Some(1) by {
      assert k0.proc[1].stat == UNUSED;
    }
    k.procp := p.value;
    ghost var s1, proc1 := k.m.View(), k.proc[..];
    AllocedFirst(kend, rodata, k0.proc, s0, k.proc[1]);
    var pgdir := SetupKvm(k.m);
    ghost var s2 := k.m.View();
    RoomForCode(s1, s2, pgdir / PAGESIZE, rodata);
    CodeSize();
    k.proc[k.procp] := k.proc[k.procp].(pgdir := pgdir);
    InitUvm(k.m, pgdir, InitCode());
    k.proc[k.procp] := k.proc[k.procp].(size := |InitCode()|,
      tf := k.proc[k.procp].tf.(esp := KERNEND + PAGESIZE, eip := KERNEND));
    k.proc[k.procp] := k.proc[k.procp].(stat := RUN);
    k.cr3 := pgdir;
    assert k.proc[1] == FirstProc(pgdir, proc1[1].kstack);
    assert k.proc[..] == proc1[1 := k.proc[1]] == k0.proc[1 := k.proc[1]];
    FirstSpace(kend, rodata, proc1, s1, s2, k.m.View(), k.proc[1]);
    FirstSteady(kend, rodata, k0, k.KView(), k.m.View());
    CodeShown(pgdir / PAGESIZE, s2, k.m.View(), KERNEND, InitCode());
    FirstPageFilled(pgdir / PAGESIZE, s2, k.m.View(), InitCode());
  }

  lemma AllocedFirst(kend: nat, rodata: nat, proc: seq<Proc>, s: State, p: Proc)
    requires MemInv(proc, s, rodata) && proc[1].pgdir == 0 && proc[1].kstack == 0 && s.free != []
    requires p.pgdir == 0 && p.kstack == s.free[|s.free| - 1] * PAGESIZE && Good(kend, s)
    ensures |s.mem| == NP && |s.owner| == NP && s.head / PAGESIZE < NP && 0 < s.free[|s.free| - 1] < NP
    ensures MemInv(proc[1 := p], TakeStack(s, 1), rodata) && Good(kend, TakeStack(s, 1))
    ensures |TakeStack(s, 1).free| == |s.free| - 1
  {
    hide Good, MemInv;
    TakeStackKeeps(kend, s, 1);
    MemInvAlloc(kend, proc, s, rodata, 1, p);
  }

  /** The code page needs a table and a frame. */
  lemma RoomForCode(s1: State, s2: State, d: nat, rodata: nat)
    requires Building(s1, s2, d, rodata, NP)
    ensures d in s2.spaces && Cost(s2.spaces[d].tabs, UPAGE, 1) == 2 && UPAGE !in s2.spaces[d].pages
  {
    FreshCost(s2.spaces[d].tabs, 1);
  }

  /** The whole of boot: every page from kernel_end up is handed to the allocator, and then the first process is
      made. */
  method Start(contents: seq<Page>, kernelEnd: nat, rodataEnd: nat, inode0: nat, inode1: nat) returns (k: Kernel)
    requires |contents| == NP && EXTPAGE < rodataEnd <= kernelEnd && kernelEnd + BOOTCOST <= NP
    ensures fresh(k) && fresh(k.m) && fresh(k.m.mem) && fresh(k.proc) && fresh(k.file) && k.Valid()
    ensures Awake(k.KView()) && k.procp == 1
    ensures |k.m.free| == NP - kernelEnd - BOOTCOST && RetiredPages(k.m.View()) == {}
    ensures k.m.kend == kernelEnd && k.m.rodata == rodataEnd
    ensures k.proc.Length == NPROC && k.proc[..] == NoProcs()[1 := FirstProc(k.cr3, k.proc[1].kstack)]
    ensures Shows(k.m.View(), k.cr3 / PAGESIZE, KERNEND, InitCode())
    ensures FirstPage(k.m.View(), k.cr3 / PAGESIZE, InitCode())
  {
    hide Good, Steady, FreedUpTo, AllocOk, Fresh, RetiredPages, FirstPage;
    var m := new Machine(contents, kernelEnd, rodataEnd);
    Kinit(m);
    k := new Kernel(m, inode0, inode1);
    AllFree(m.kend, m.View());
    ghost var k0 := k.KView();
    assert Fresh(k0) by {
      FreshTables(k0, inode0, inode1);
    }
    UInit(k);
  }

  lemma AllFree(kend: nat, s: State)
    requires Good(kend, s) && FreedUpTo(kend, s, NP)
    ensures |s.free| == NP - kend
  {
  }

  lemma FreshTables(k: KState, inode0: nat, inode1: nat)
    requires k.proc == NoProcs()
    requires k.file == NoFilesOpen(inode0, inode1)
    requires k.forks == 0 && k.sched == 0 && k.nextpid == 0
    ensures Fresh(k)
  {
  }
}
