/** The outcomes of the events in plain words, without the functions that compute them. */
module Outcomes {
  import opened Memory
  import opened Paging
  import opened KernelMap
  import opened Growing
  import opened Forking
  import opened Virtual
  import opened Strings
  import opened UserStack
  import opened Elf
  import opened Loading
  import opened Exec
  import opened ElfLayout
  import Vm
  import opened ProcTable
  import opened KernelMem
  import opened Inodes
  import opened ReadCall
  import opened Sched
  import opened SwitchCalls
  import opened ForkCall
  import opened ExecCall
  import opened UserMode
  import opened Effects
  import opened Traces

  // ---- execv ---------------------------------------------------------------------------------

  /** The process resumes at the entry point with its new directory; nothing else about it or others has changed. */
  ghost predicate RestartedAt(b: Snap, a: Snap, entry: word)
    requires Tables(b.k) && |a.k.proc| == NPROC
  {
    var p, q := b.k.proc[b.k.procp], a.k.proc[b.k.procp];
    && a.k.procp == b.k.procp && q.tf.eip == entry && q.tf.eax == p.tf.eax && q.pgdir == a.k.cr3
    && q.stat == p.stat && q.pid == p.pid && q.pproc == p.pproc && q.kstack == p.kstack && q.ofile == p.ofile
    && q.wchan == p.wchan && a.k.file == b.k.file && a.k.sched == b.k.sched && a.k.nextpid == b.k.nextpid
    && forall i :: 0 <= i < NPROC && i != b.k.procp ==> a.k.proc[i] == b.k.proc[i]
  }

  /** Every segment is in user memory, and below the stack pointer user memory shows the segments and zeros. */
  ghost predicate SegmentsThere(a: Snap, sp: word, f: seq<byte>, hs: seq<ProgHdr>) {
    var d := a.k.cr3 / PAGESIZE;
    && (forall i, c: nat :: 0 <= i < |hs| && In(hs[i], c) && KERNEND <= c ==> UserAddr(a.s, d, c))
    && (forall c: nat :: UserAddr(a.s, d, c) && c < sp ==> ShowsSegments(f, hs, |hs|, c, UserByte(a.s, d, c)))
  }

  /** From the stack pointer up the program finds a return address, argc, and the address of a vector of pointers to
      its arguments, NUL-terminated, with a null pointer behind the last. */
  ghost predicate ArgumentsThere(s: State, d: nat, sp: word, args: seq<seq<byte>>) {
    && WordThere(s, d, sp) && UserWord(s, d, sp) == 0xFFFF_FFFF
    && WordThere(s, d, sp + 4) && UserWord(s, d, sp + 4) == |args| && WordThere(s, d, sp + 8)
    && var argv := UserWord(s, d, sp + 8);
       forall i :: 0 <= i <= |args| ==> ArgumentAt(s, d, argv, args, i)
  }

  ghost predicate ArgumentAt(s: State, d: nat, argv: word, args: seq<seq<byte>>, i: nat)
    requires i <= |args|
  {
    && WordThere(s, d, argv + 4 * i)
    && var p := UserWord(s, d, argv + 4 * i);
       if i == |args| then p == 0
       else HasNul(args[i]) && Shows(s, d, p, args[i][..Length(args[i])] + [0])
  }

  /** User memory is [KERNEND, top), and the program may write to it except for the page below the last. */
  ghost predicate RegionIs(s: State, d: nat, top: nat) {
    && (forall c: nat :: UserAddr(s, d, c) <==> KERNEND <= c < top)
    && (forall c: nat :: UserAddr(s, d, c) ==> (UserWritable(s, d, c) <==> !(top - 2 * PAGESIZE <= c < top - PAGESIZE)))
  }

  /** The region of `size` bytes ends two pages above the page in which the last segment ends: the lower of the two is
      closed to the program, all else is open for reading and writing. */
  ghost predicate RegionFits(a: Snap, size: word, hs: seq<ProgHdr>) {
    var top := KERNEND + size;
    && RegionIs(a.s, a.k.cr3 / PAGESIZE, top)
    && TopIs(hs, top)
  }

  /** Address top is two pages above the page in which the last segment ends, or KERNEND if there is none. */
  ghost predicate TopIs(hs: seq<ProgHdr>, top: nat) {
    && top % PAGESIZE == 0 && top >= KERNEND + 2 * PAGESIZE
    && (forall i :: 0 <= i < |hs| && hs[i].kind == 1 ==> hs[i].vaddr + hs[i].memsz <= top - 2 * PAGESIZE)
    && (top == KERNEND + 2 * PAGESIZE
        || exists i :: 0 <= i < |hs| && hs[i].kind == 1 && top - 3 * PAGESIZE < hs[i].vaddr + hs[i].memsz)
  }

  /** The pages that execv takes for user memory up to top: these, a table for every 1024 of them, the kernel half. */
  function PagesUpTo(top: nat): nat
    requires top >= KERNEND
  {
    var n := (top - KERNEND) / 0x1000;
    129 + n + (n + 1023) / 1024
  }

  /** The new program, as it finds itself. */
  ghost predicate ProgramThere(b: Snap, a: Snap, f: seq<byte>, args: seq<seq<byte>>, entry: word, hs: seq<ProgHdr>) {
    && Tables(b.k) && |a.k.proc| == NPROC && RestartedAt(b, a, entry)
    && var p := a.k.proc[b.k.procp];
    && SegmentsThere(a, p.tf.esp, f, hs) && ArgumentsThere(a.s, a.k.cr3 / PAGESIZE, p.tf.esp, args)
    && RegionFits(a, p.size, hs)
  }

  lemma ArgumentsReadBack(s: State, d: nat, top: nat, args: seq<seq<byte>>, sp: word)
    requires AreArgs(args) && StackBuilt(s, d, top, args, sp)
    ensures ArgumentsThere(s, d, sp, args)
  {
    hide UserAddr, UserByte, UserWord, WordThere, Shows, SpAfter;
    var argv := UserWord(s, d, sp + 8);
    forall i | 0 <= i <= |args|
      ensures ArgumentAt(s, d, argv, args, i)
    {
      StackReadsBack(s, d, top, args, sp, i);
    }
  }

  lemma SegmentsInRegion(kend: nat, a: Snap, f: seq<byte>, args: seq<seq<byte>>, sp: word, entry: word, phoff: word,
                         hs: seq<ProgHdr>)
    requires ElfFile(f, entry, phoff, hs) && HasHeader(f) && a.k.cr3 / PAGESIZE in a.s.spaces
    requires UserRegion(a.s.spaces[a.k.cr3 / PAGESIZE], StackTop(f)) && ImageBelow(a.s, a.k.cr3 / PAGESIZE, f, sp)
    requires Good(kend, a.s)
    ensures SegmentsThere(a, sp, f, hs)
  {
    hide ElfFile, Good, UserAddr, UserByte, UserRegion, ImageEnd, ImageByte, ShowsSegments;
    var d := a.k.cr3 / PAGESIZE;
    FileHeader(f, entry, phoff, hs);
    EndOfImage(f, entry, phoff, hs, |hs|);
    forall i, c: nat | 0 <= i < |hs| && In(hs[i], c) && KERNEND <= c
      ensures UserAddr(a.s, d, c)
    {
      RegionAddr(kend, a.s, d, StackTop(f), c, 1);
    }
    forall c: nat | UserAddr(a.s, d, c) && c < sp
      ensures ShowsSegments(f, hs, |hs|, c, UserByte(a.s, d, c))
    {
      ImageShowsSegments(f, entry, phoff, hs, |hs|, c);
    }
  }

  /** The top is what the headers say, and nothing else is. */
  lemma TopOfRegion(f: seq<byte>, top: nat, entry: word, phoff: word, hs: seq<ProgHdr>)
    requires ElfFile(f, entry, phoff, hs) && HasHeader(f)
    ensures TopIs(hs, top) <==> top == StackTop(f) * PAGESIZE
  {
    hide ElfFile, ImageEnd, U32, PhNum, StackTop;
    FileHeader(f, entry, phoff, hs);
    EndOfImage(f, entry, phoff, hs, |hs|);
    TopAbove(f);
    if TopIs(hs, top) {
      RoundedOnce(top, StackTop(f) * PAGESIZE, ImageEnd(f, |hs|));
    }
  }

  lemma RoundedOnce(top: nat, other: nat, end: nat)
    requires top % PAGESIZE == 0 && other % PAGESIZE == 0
    ensures top - 3 * PAGESIZE < end <= top - 2 * PAGESIZE && other - 3 * PAGESIZE < end <= other - 2 * PAGESIZE ==>
              top == other
  {
  }

  lemma TopAbove(f: seq<byte>)
    requires HasHeader(f)
    ensures var end, top := ImageEnd(f, PhNum(f)), StackTop(f) * PAGESIZE;
            && top % PAGESIZE == 0 && top - 3 * PAGESIZE < end <= top - 2 * PAGESIZE
            && (end == KERNEND <==> top == KERNEND + 2 * PAGESIZE) && end >= KERNEND
  {
    hide ImageEnd, PhNum;
  }

  lemma BytesOfRegion(kend: nat, s: State, d: nat, tp: nat)
    requires d in s.spaces && UserRegion(s.spaces[d], tp) && GuardedFlags(s.spaces[d], tp) && UPAGE + 2 <= tp
    requires Good(kend, s)
    ensures RegionIs(s, d, tp * PAGESIZE)
  {
    hide Good, UserAddr, UserWritable, UserRegion;
    forall c: nat
      ensures UserAddr(s, d, c) <==> KERNEND <= c < tp * PAGESIZE
      ensures UserAddr(s, d, c) ==> (UserWritable(s, d, c) <==> c / PAGESIZE + 2 != tp)
    {
      if KERNEND <= c < tp * PAGESIZE {
        RegionAddr(kend, s, d, tp, c, 1);
      }
      if UserAddr(s, d, c) {
        PageOfRegion(s, d, tp, c);
      }
    }
  }

  lemma PageOfRegion(s: State, d: nat, tp: nat, c: nat)
    requires d in s.spaces && UserRegion(s.spaces[d], tp) && GuardedFlags(s.spaces[d], tp) && UserAddr(s, d, c)
    ensures KERNEND <= c < tp * PAGESIZE && (UserWritable(s, d, c) <==> c / PAGESIZE + 2 != tp)
  {
  }

  lemma CostByTop(f: seq<byte>)
    requires HasHeader(f)
    ensures UPAGE + 2 <= StackTop(f) && ExecCost(f) == PagesUpTo(StackTop(f) * PAGESIZE)
  {
    hide ImageEnd, PhNum;
  }

  /** Which files execv accepts, said by the bytes of the file: those whose headers are fine, if there are pages for the
      region that ends at the top the headers ask for. */
  lemma AcceptedOutcome(env: Env, b: Snap, a: Snap, f: seq<byte>, args: seq<seq<byte>>, r: int, entry: word,
                        phoff: word,
                        hs: seq<ProgHdr>) returns (top: nat)
    requires Ran(env, b, a, f, args, r) && ElfFile(f, entry, phoff, hs)
    ensures TopIs(hs, top)
    ensures r == 0 <==> (forall i :: 0 <= i < |hs| ==> HeaderFine(hs[i], |f|)) && |b.s.free| >= PagesUpTo(top)
  {
    hide ElfFile, Executable, ExecCost, LeftBehind, Installed, U32, StackTop, AfterExec, HeaderFine, TopIs, PagesUpTo,
         AreArgs;
    FileHeader(f, entry, phoff, hs);
    ProgramsAccepted(f, entry, phoff, hs);
    top := StackTop(f) * PAGESIZE;
    TopOfRegion(f, top, entry, phoff, hs);
    CostByTop(f);
  }

  /** The program that execv has put in place finds its segments, its arguments and its registers. */
  lemma ProgramOutcome(env: Env, b: Snap, a: Snap, f: seq<byte>, args: seq<seq<byte>>, r: int, entry: word, phoff: word,
                       hs: seq<ProgHdr>)
    requires Tables(b.k) && Ran(env, b, a, f, args, r) && r == 0 && ElfFile(f, entry, phoff, hs) && Good(env.kend, a.s)
    ensures ProgramThere(b, a, f, args, entry, hs)
  {
    hide ElfFile, Good, Executable, ExecCost, LeftBehind, Replaced, KernelHalf, UserRegion, GuardedFlags, StackBuilt,
         ImageBelow, U32, StackTop, AfterExec, AreArgs, RegionIs, TopIs, ArgumentsThere, SegmentsThere;
    FileHeader(f, entry, phoff, hs);
    var sp :| Installed(b.k, a.k, b.s, a.s, env.rodata, f, args, sp);
    SegmentsInRegion(env.kend, a, f, args, sp, entry, phoff, hs);
    ArgumentsReadBack(a.s, a.k.cr3 / PAGESIZE, StackTop(f) * PAGESIZE, args, sp);
    TopOfRegion(f, StackTop(f) * PAGESIZE, entry, phoff, hs);
    CostByTop(f);
    BytesOfRegion(env.kend, a.s, a.k.cr3 / PAGESIZE, StackTop(f));
  }

  // ---- fork ----------------------------------------------------------------------------------

  /** The process in slot i of a is the child of the running process of b: it will run, find 0 in eax and all else as
      its parent has it. */
  ghost predicate ChildIn(b: Snap, a: Snap, i: nat)
    requires Tables(b.k) && i < |a.k.proc|
  {
    var p, q := b.k.proc[b.k.procp], a.k.proc[i];
    && q.tf.eax == 0 && q.tf.eip == p.tf.eip && q.tf.esp == p.tf.esp
    && q.pproc == Some(b.k.procp) && q.stat == RUN && q.wchan == NoChan && q.pid == b.k.nextpid && q.size == p.size
    && |q.ofile| == |p.ofile| && forall fd :: 0 <= fd < |p.ofile| ==> q.ofile[fd] == p.ofile[fd]
  }

  /** Address space e after shows what d showed before. */
  ghost predicate ShowsTheSame(s: State, d: nat, t: State, e: nat) {
    forall c: nat :: (UserAddr(s, d, c) <==> UserAddr(t, e, c))
                     && (UserAddr(s, d, c) ==> UserByte(t, e, c) == UserByte(s, d, c))
  }

  lemma CopyShowsTheSame(kend: nat, s0: State, s: State, rodata: nat, i: nat, d: nat, e: nat, n: nat)
    requires |s0.mem| == |s0.owner| == NP && s0.free != [] && s0.free[|s0.free| - 1] < NP && s0.head / PAGESIZE < NP
    requires CopyOf(TakeStack(s0, i), s, d, e, rodata, n) && d in s0.spaces && UserRegion(s0.spaces[d], UPAGE + n)
    requires Good(kend, s0)
    ensures ShowsTheSame(s0, d, s, e)
  {
    hide Good, CopyOf, UserByte, TakeStack;
    TakeStackKeeps(kend, s0, i);
    CopyElsewhere(kend, s0, s, rodata, i, d, e, n, d);
    forall c: nat
      ensures UserAddr(s0, d, c) <==> UserAddr(s, e, c)
      ensures UserAddr(s0, d, c) ==> UserByte(s, e, c) == UserByte(s0, d, c)
    {
      if UPAGE <= c / PAGESIZE < UPAGE + n {
        ForkCopies(kend, TakeStack(s0, i), s, d, e, rodata, n, c);
      } else {
        NotCopied(s0, s, rodata, i, d, e, n, c);
      }
    }
  }

  lemma NotCopied(s0: State, s: State, rodata: nat, i: nat, d: nat, e: nat, n: nat, c: nat)
    requires |s0.mem| == |s0.owner| == NP && s0.free != [] && s0.free[|s0.free| - 1] < NP && s0.head / PAGESIZE < NP
    requires CopyOf(TakeStack(s0, i), s, d, e, rodata, n) && d in s0.spaces && UserRegion(s0.spaces[d], UPAGE + n)
    requires !(UPAGE <= c / PAGESIZE < UPAGE + n)
    ensures !UserAddr(s0, d, c) && !UserAddr(s, e, c)
  {
    hide Holds, OnlyInto, KernelHalf, TakeStack;
  }

  /** The child is in slot i, the first that was unused, with the parent's memory as it was; all other slots, the
      parent's among them, are as before. */
  ghost predicate ForkedChild(b: Snap, a: Snap, i: nat)
    requires Tables(b.k)
  {
    && 0 < i < |a.k.proc| == NPROC && i != b.k.procp && b.k.proc[i].stat == UNUSED
    && (forall j :: 0 <= j < i ==> b.k.proc[j].stat != UNUSED)
    && ChildIn(b, a, i) && (forall j :: 0 <= j < NPROC && j != i ==> a.k.proc[j] == b.k.proc[j])
    && a.k == b.k.(proc := a.k.proc, file := a.k.file, nextpid := b.k.nextpid + 1, forks := b.k.forks + 1)
    && ShowsTheSame(b.s, b.k.proc[b.k.procp].pgdir / PAGESIZE, a.s, a.k.proc[i].pgdir / PAGESIZE)
    && |a.s.free| == |b.s.free| - (1 + ForkCost(PagesOf(b.k)))
  }

  /** A slot is unused, and there are pages for a stack, a directory, 128 kernel tables, the user pages of the running
      process and their tables. */
  ghost predicate RoomForChild(b: Snap)
    requires Tables(b.k)
  {
    var n := (b.k.proc[b.k.procp].size + 0xFFF) / 0x1000;
    (exists j :: 0 <= j < NPROC && b.k.proc[j].stat == UNUSED) && |b.s.free| >= 130 + n + (n + 1023) / 1024
  }

  lemma RoomMeansWorks(b: Snap)
    requires Tables(b.k)
    ensures RoomForChild(b) <==> ForkWorks(b)
  {
  }

  /** A fork that has a slot and pages. */
  lemma ForkOutcome(env: Env, b: Snap, a: Snap) returns (i: nat)
    requires InOrder(env, b) && Awake(b.k) && Effect(env, ForkEvent, b, a) && Tables(b.k) && RoomForChild(b)
    ensures ForkedChild(b, a, i)
  {
    hide InOrder, Good, CopyOf, ForkWorks, TakeStack, ForkCost, KernelHalf, UserAddr, UserByte, ShowsTheSame,
         RoomForChild;
    RunningRegion(env, b);
    RoomMeansWorks(b);
    var c :| 0 <= c < |a.k.proc| && ForkedInto(b.k, a.k, b.s, a.s, env.rodata, c);
    i := c;
    CopyShowsTheSame(env.kend, b.s, a.s, env.rodata, i, b.k.proc[b.k.procp].pgdir / PAGESIZE,
      a.k.proc[i].pgdir / PAGESIZE, PagesOf(b.k));
  }

  /** A fork without room: only unused slots differ, and of the pages that were free only such are missing as were made
      kernel tables of an address space that was given up, at most 128. */
  lemma ForkRefused(env: Env, b: Snap, a: Snap)
    requires InOrder(env, b) && Awake(b.k) && Effect(env, ForkEvent, b, a) && Tables(b.k) && !RoomForChild(b)
    ensures |a.k.proc| == |b.k.proc| && a.k == b.k.(proc := a.k.proc, nextpid := a.k.nextpid)
    ensures forall j :: 0 <= j < NPROC ==> if b.k.proc[j].stat == UNUSED then a.k.proc[j].stat == UNUSED
                                             else a.k.proc[j] == b.k.proc[j]
    ensures |b.s.free| - 128 <= |a.s.free| <= |b.s.free| && LeftBehind(b.s, a.s)
  {
    hide InOrder, ForkWorks, RoomForChild, LeftBehind;
    RoomMeansWorks(b);
  }

  /** The running process, its slot and its memory. */
  lemma RunningRegion(env: Env, b: Snap)
    requires InOrder(env, b)
    ensures Good(env.kend, b.s) && 0 < b.k.procp < NPROC == |b.k.proc| && b.k.proc[0].stat == ZOMB
    ensures var d := b.k.proc[b.k.procp].pgdir / PAGESIZE;
            d in b.s.spaces && UserRegion(b.s.spaces[d], UPAGE + Vm.CeilPage(b.k.proc[b.k.procp].size))
  {
    hide Good, FilesCounted, KernelHalf, UserRegion, DirSane, TableOk;
    assert SlotSane(b.k.proc[b.k.procp]) && SlotMem(b.s, env.rodata, b.k.procp, b.k.proc[b.k.procp]);
  }

  // ---- who runs next -------------------------------------------------------------------------

  /** From x to y sched has chosen, with cursors c and last hit t among the processes that can run, and cursors e
      and last hit u among those asleep: the process at the last hit, if there is one, has its directory loaded; the
      cursor is where the scan left it. */
  ghost predicate ChosenBy(x: KState, y: KState, c: seq<nat>, t: Option<nat>, e: seq<nat>, u: Option<nat>) {
    && Tables(x) && Cursors(x.proc, RUN, c) && c[0] == x.sched && LastHit(x.proc, RUN, c, 0, t)
    && Cursors(x.proc, SLEEP, e) && e[0] == x.sched && LastHit(x.proc, SLEEP, e, 0, u)
    && y == if t.Some? then SwitchedTo(x, (c[t.value] + t.value) % 64, t.value)
            else if u.Some? && x.proc[x.procp].stat == ZOMB then SwitchedTo(x, (e[u.value] + u.value) % 64, u.value)
            else x
  }

  /** The process in this slot runs on its own directory. */
  function SwitchedTo(x: KState, slot: nat, cursor: nat): KState
    requires slot < |x.proc|
  {
    x.(procp := slot, sched := cursor, cr3 := x.proc[slot].pgdir)
  }

  ghost predicate Scheduled(x: KState, y: KState) {
    exists c, t, e, u :: ChosenBy(x, y, c, t, e, u)
  }

  lemma SchedOutcome(x: KState)
    requires Tables(x) && x.cr3 == x.proc[x.procp].pgdir
    ensures Scheduled(x, SchedStep(x).0)
    ensures (exists j :: 0 <= j < NPROC && x.proc[j].stat == RUN) ==>
              SchedStep(x).0.procp < NPROC && x.proc[SchedStep(x).0.procp].stat == RUN
  {
    hide SchedStep, Cursors, LastHit;
    var c := CursorsExist(x.proc, RUN, x.sched);
    var t := HasLastHit(x.proc, RUN, c, 0);
    var e := CursorsExist(x.proc, SLEEP, x.sched);
    var u := HasLastHit(x.proc, SLEEP, e, 0);
    SchedExact(x, c, t, e, u);
    assert ChosenBy(x, SchedStep(x).0, c, t, e, u);
    if exists j :: 0 <= j < NPROC && x.proc[j].stat == RUN {
      GivesWay(x);
    }
  }

  /** A timer tick hands the processor to the process that the scan finds; if anybody can run, the process that runs
      afterwards can. */
  lemma TimerOutcome(env: Env, b: Snap, a: Snap)
    requires InOrder(env, b) && Effect(env, TimerEvent, b, a)
    ensures Scheduled(b.k, a.k) && a == b.(k := a.k) && a.k.proc == b.k.proc && a.k.procp < |a.k.proc|
    ensures (exists j :: 0 <= j < NPROC && b.k.proc[j].stat == RUN) ==> a.k.proc[a.k.procp].stat == RUN
  {
    hide Good, MemInv, FilesCounted, ProcsSane, DirSane, TableOk, Scheduled;
    SchedOutcome(b.k);
    SchedLeaves(b.k);
  }

  lemma SchedLeaves(x: KState)
    requires Tables(x)
    ensures SchedStep(x).0.proc == x.proc && SchedStep(x).0.procp < NPROC
    ensures var y := SchedStep(x).0; y == x.(procp := y.procp, sched := y.sched, cr3 := y.cr3)
  {
    hide ScanFrom;
  }

  // ---- exit and wait -------------------------------------------------------------------------

  /** The caller, in slot me, is a zombie, and whoever slept on the slot of its parent can run. */
  ghost predicate AfterExit(proc: seq<Proc>, me: nat, proc': seq<Proc>)
    requires me < |proc|
  {
    |proc'| == |proc| && forall i :: 0 <= i < |proc| ==>
      proc'[i] == if i == me then proc[i].(stat := ZOMB)
                  else if proc[me].pproc.Some? && proc[i].stat == SLEEP
                          && proc[i].wchan == ProcChan(proc[me].pproc.value)
                  then proc[i].(stat := RUN, wchan := NoChan)
                  else proc[i]
  }

  /** exit. */
  lemma ExitOutcome(env: Env, b: Snap, a: Snap)
    requires InOrder(env, b) && Awake(b.k) && Effect(env, ExitEvent, b, a)
    ensures Tables(b.k) && AfterExit(b.k.proc, b.k.procp, a.k.proc) && a == b.(k := a.k)
    ensures Scheduled(b.k.(proc := a.k.proc), a.k)
  {
    hide Good, MemInv, FilesCounted, DirSane, TableOk, Scheduled, SchedStep;
    var proc := Exited(b.k.proc, b.k.procp);
    SchedOutcome(b.k.(proc := proc));
    SchedLeaves(b.k.(proc := proc));
    forall i | 0 <= i < NPROC
      ensures i != 0 ==> SlotSane(b.k.proc[i])
    {
    }
  }

  /** The running process goes to sleep on a channel, in wait on its own slot. */
  lemma SleepOutcome(env: Env, b: Snap, a: Snap, chan: Chan)
    requires InOrder(env, b) && Awake(b.k)
    requires Effect(env, SleepEvent(chan), b, a) || (chan == ProcChan(b.k.procp) && Effect(env, WaitEvent, b, a))
    ensures Tables(b.k) && a == b.(k := a.k)
    ensures a.k.proc == b.k.proc[b.k.procp := b.k.proc[b.k.procp].(stat := SLEEP, wchan := chan)]
    ensures Scheduled(b.k.(proc := a.k.proc), a.k)
  {
    hide Good, MemInv, FilesCounted, ProcsSane, DirSane, TableOk, Scheduled, SchedStep;
    var proc := b.k.proc[b.k.procp := b.k.proc[b.k.procp].(stat := SLEEP, wchan := chan)];
    SchedOutcome(b.k.(proc := proc));
    SchedLeaves(b.k.(proc := proc));
    assert Asleep(b.k, chan) == proc;
  }

  // ---- pointers ------------------------------------------------------------------------------

  /** A 32-bit word read as a C int. */
  function AsInt(w: word): int {
    if w < 0x8000_0000 then w else w - 0x1_0000_0000
  }

  /** argptr accepts exactly the pointers that are above KERNEND as an int; others are taken for null. */
  lemma PointersAccepted(arg: word)
    ensures ArgPtr(arg) == if AsInt(arg) > 0x4000_0000 then arg else 0
  {
  }

  /** A system call with a pointer that is not accepted fails and changes nothing at all. */
  lemma PointerRefused(env: Env, e: Event, b: Snap, a: Snap)
    requires Effect(env, e, b, a)
    requires (e.OpenEvent? && AsInt(e.path) <= 0x4000_0000) || (e.ExecEvent? && AsInt(e.path) <= 0x4000_0000)
             || (e.ReadEvent? && AsInt(e.arg) <= 0x4000_0000)
    ensures a == b
  {
    hide HasString, HasArgs, FileOf, CanName, ExecNamed, OpenNamed, ReadReady;
    match e {
      case OpenEvent(path) =>
        PointersAccepted(path);
      case ExecEvent(path, _) =>
        PointersAccepted(path);
      case ReadEvent(fd, arg, size) =>
        PointersAccepted(arg);
    }
  }

  // ---- stores, wakeups, closing --------------------------------------------------------------

  /** A store changes the byte at its address and no other if the page is there with P, W and U, else nothing. */
  lemma StoreOutcome(env: Env, b: Snap, a: Snap, va: word, x: byte)
    requires InOrder(env, b) && Awake(b.k) && Effect(env, StoreEvent(va, x), b, a)
    ensures var d := b.k.cr3 / PAGESIZE;
            if UserAddr(b.s, d, va) && b.s.spaces[d].pages[va / PAGESIZE].flags % 8 == 7
            then a.k == b.k && forall c: nat :: UserAddr(b.s, d, c) ==>
                   UserAddr(a.s, d, c) && UserByte(a.s, d, c) == if c == va then x else UserByte(b.s, d, c)
            else a == b
  {
    hide Good, FilesCounted, MemInv, ProcsSane, DirSane, TableOk, UserByte, StoreAllowed;
    var d := b.k.cr3 / PAGESIZE;
    if UserAddr(b.s, d, va) {
      Vm.PageSane(env.kend, b.s, d, va / PAGESIZE);
      StoreBits(b.s.spaces[d].pages[va / PAGESIZE].flags);
    }
  }

  /** A wakeup lets exactly those run that sleep on the channel. */
  lemma WakeOutcome(env: Env, b: Snap, a: Snap, chan: Chan)
    requires InOrder(env, b) && chan != NoChan && Effect(env, WakeEvent(chan), b, a)
    ensures |a.k.proc| == |b.k.proc| == NPROC && a == b.(k := b.k.(proc := a.k.proc))
    ensures forall i :: 0 <= i < NPROC ==>
              a.k.proc[i] == if b.k.proc[i].stat == SLEEP && b.k.proc[i].wchan == chan
                             then b.k.proc[i].(stat := RUN, wchan := NoChan) else b.k.proc[i]
  {
    hide Good, FilesCounted, MemInv, ProcsSane, DirSane, TableOk, Woken;
    WakeupSafe(b.k.proc, chan);
  }

  /** close of an open descriptor but the console's frees the descriptor and drops one reference; all else stays. */
  lemma CloseOutcome(env: Env, b: Snap, a: Snap, fd: nat, f: nat)
    requires InOrder(env, b) && Awake(b.k) && Effect(env, CloseEvent(fd), b, a) && 2 <= fd && FileOf(b.k, fd) == Some(f)
    ensures |a.k.proc| == |b.k.proc| && a == b.(k := b.k.(proc := a.k.proc, file := a.k.file))
    ensures forall i :: 0 <= i < |b.k.proc| && i != b.k.procp ==> a.k.proc[i] == b.k.proc[i]
    ensures var p, q := b.k.proc[b.k.procp], a.k.proc[b.k.procp];
            && q == p.(ofile := q.ofile) && |q.ofile| == |p.ofile|
            && forall g :: 0 <= g < |p.ofile| ==> q.ofile[g] == if g == fd then None else p.ofile[g]
    ensures |a.k.file| == |b.k.file|
    ensures forall g :: 0 <= g < |b.k.file| ==>
              if g == f then b.k.file[g].refcnt > 0 && a.k.file[g] == b.k.file[g].(refcnt := b.k.file[g].refcnt - 1)
              else a.k.file[g] == b.k.file[g]
  {
    hide InOrder;
  }
}
