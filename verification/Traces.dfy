/** What the effects of single events add up to over a whole run. */
module Traces {
  import opened Memory
  import opened Paging
  import opened Unmapping
  import opened KernelMap
  import opened Growing
  import opened Forking
  import opened Losses
  import opened UserStack
  import opened Exec
  import opened CallerArgs
  import opened Virtual
  import opened ProcTable
  import opened Files
  import opened KernelMem
  import opened Sched
  import opened SwitchCalls
  import opened ProcCalls
  import opened ForkCall
  import opened ExecCall
  import opened UserMode
  import opened Inodes
  import opened WholeMachine
  import opened ReadCall
  import opened Effects

  // ---- one step: what is left of a process that has no part in it -----------------------------

  /** Event e may change the memory of the process in slot i: its own store, execv or read, or its collection. */
  predicate Touches(e: Event, b: Snap, i: nat)
    requires i < |b.k.proc|
  {
    Awake(b.k)
    && if b.k.procp == i then e.StoreEvent? || e.ExecEvent? || e.ReadEvent?
       else e.CollectEvent? && Collectable(b.k.proc[i], b.k.procp)
  }

  predicate SameProc(p: Proc, q: Proc) {
    && q.stat != UNUSED && q.pid == p.pid && q.pproc == p.pproc && q.size == p.size
    && q.pgdir == p.pgdir && q.kstack == p.kstack && (p.stat == ZOMB ==> q == p)
  }

  /** Slot i still holds the process it held, with the same user memory; if it was a zombie, nothing has changed. */
  ghost predicate SameProcess(b: Snap, a: Snap, i: nat) {
    && i < |b.k.proc| && i < |a.k.proc| && SameProc(b.k.proc[i], a.k.proc[i])
    && SameUserMemory(b.s, a.s, b.k.proc[i].pgdir / PAGESIZE)
  }

  lemma OrderFacts(env: Env, b: Snap, i: nat)
    requires InOrder(env, b) && 0 < i < NPROC && b.k.proc[i].stat != UNUSED
    ensures Good(env.kend, b.s) && Tables(b.k) && |b.s.mem| == |b.s.owner| == NP && b.k.cr3 == b.k.proc[b.k.procp].pgdir
    ensures SlotSane(b.k.proc[i]) && b.k.proc[i].pgdir != 0 && b.k.proc[i].pgdir / PAGESIZE in b.s.spaces
    ensures b.k.proc[i].pgdir % PAGESIZE == 0 && b.k.proc[b.k.procp].pgdir != 0
    ensures forall j :: 0 <= j < NPROC && j != i && b.k.proc[j].pgdir != 0 ==>
              b.k.proc[j].pgdir / PAGESIZE != b.k.proc[i].pgdir / PAGESIZE
    ensures b.k.proc[b.k.procp].stat == RUN || b.k.proc[b.k.procp].stat == SLEEP
  {
    hide Good, FilesCounted, SpaceComplete, DirSane, TableOk;
    ValidSizes(env.kend, b.s);
    assert SlotSane(b.k.proc[i]) && SlotMem(b.s, env.rodata, i, b.k.proc[i]) && SlotSane(b.k.proc[b.k.procp]);
    OtherDirs(b.k.proc, b.s, env.rodata, i);
  }

  lemma WokenKept(proc: seq<Proc>, proc': seq<Proc>, chan: Chan, i: nat)
    requires i < |proc| == |proc'| && SameProc(proc[i], proc'[i]) && SlotSane(proc'[i]) && chan != NoChan
    ensures i < |Woken(proc', chan)| && SameProc(proc[i], Woken(proc', chan)[i])
  {
  }

  // ---- memory --------------------------------------------------------------------------------

  /** If its translation and the contents of its frames are the same, an address space shows the same bytes. */
  lemma FramesKept(kend: nat, s: State, t: State, d: nat)
    requires d in s.spaces && d in t.spaces && t.spaces[d] == s.spaces[d] && |s.mem| == |t.mem| == NP == |s.owner|
    requires forall p {:trigger s.owner[p]} {:trigger t.mem[p]} :: 0 <= p < NP && FrameOf(s.owner[p], d) ==>
               t.mem[p] == s.mem[p]
    requires Good(kend, s)
    ensures SameUserMemory(s, t, d)
  {
    hide Good;
    ValidSizes(kend, s);
    forall a: nat | UserAddr(s, d, a)
      ensures UserByte(t, d, a) == UserByte(s, d, a)
    {
      FrameOwner(kend, s, d, a / PAGESIZE);
    }
  }

  lemma WroteElsewhere(kend: nat, s: State, t: State, d: nat, e: nat, va: nat, data: seq<byte>)
    requires Wrote(d, s, t, va, data) && e != d && e in s.spaces && Good(kend, s)
    ensures SameUserMemory(s, t, e)
  {
    hide Good, UserByte;
    FramesKept(kend, s, t, e);
  }

  lemma LeftElsewhere(kend: nat, s: State, t: State, e: nat)
    requires LeftBehind(s, t) && e in s.spaces && Good(kend, s)
    ensures SameUserMemory(s, t, e)
  {
    hide Good;
    FramesKept(kend, s, t, e);
  }

  lemma CopyElsewhere(kend: nat, s0: State, s: State, rodata: nat, i: nat, d: nat, e: nat, n: nat, c: nat)
    requires |s0.mem| == |s0.owner| == NP && s0.free != [] && s0.free[|s0.free| - 1] < NP && s0.head / PAGESIZE < NP
    requires CopyOf(TakeStack(s0, i), s, d, e, rodata, n) && c in s0.spaces && Good(kend, s0)
    ensures SameUserMemory(s0, s, c)
  {
    hide Good, KernelHalf, Holds, UserPagesThere;
    FreeTop(kend, s0);
    TakeStackPages(s0, i);
    FramesKept(kend, s0, s, c);
  }

  lemma ReplacedElsewhere(kend: nat, s0: State, s: State, d: nat, e: nat, c: nat)
    requires Replaced(s0, s, d, e) && c in s0.spaces && c != d && Good(kend, s0) && e !in s0.spaces && e in s.spaces
    requires s.spaces == s0.spaces[e := s.spaces[e]] - {d}
    ensures SameUserMemory(s0, s, c)
  {
    hide Good;
    FramesKept(kend, s0, s, c);
  }

  /** A frame of a process that is not collected is no page of one that is. */
  lemma NoZombiePage(proc: seq<Proc>, me: nat, i: nat, o: Owner)
    requires |proc| == NPROC && i < NPROC && !Collectable(proc[i], me)
    requires forall j :: 0 <= j < NPROC && j != i && proc[j].pgdir != 0 ==>
               proc[j].pgdir / PAGESIZE != proc[i].pgdir / PAGESIZE
    requires FrameOf(o, proc[i].pgdir / PAGESIZE)
    ensures !ZombiePage(proc, me, NPROC, o)
  {
  }

  lemma CollectedElsewhere(kend: nat, proc: seq<Proc>, me: nat, s0: State, s: State, i: nat)
    requires |proc| == NPROC && i < NPROC && !Collectable(proc[i], me) && ZombiesGone(proc, me, NPROC, s0, s)
    requires forall j :: 0 <= j < NPROC && j != i && proc[j].pgdir != 0 ==>
               proc[j].pgdir / PAGESIZE != proc[i].pgdir / PAGESIZE
    requires forall j :: 0 <= j < NPROC && Collectable(proc[j], me) ==> proc[j].pgdir != 0
    requires proc[i].pgdir / PAGESIZE in s0.spaces && Good(kend, s0)
    ensures SameUserMemory(s0, s, proc[i].pgdir / PAGESIZE)
  {
    hide Good, ZombiePage;
    var d := proc[i].pgdir / PAGESIZE;
    assert !ZombieDir(proc, me, NPROC, d);
    forall p {:trigger s0.owner[p]} {:trigger s.mem[p]} | 0 <= p < NP && FrameOf(s0.owner[p], d)
      ensures s.mem[p] == s0.mem[p]
    {
      NoZombiePage(proc, me, i, s0.owner[p]);
    }
    FramesKept(kend, s0, s, d);
  }

  // ---- event by event ------------------------------------------------------------------------

  lemma MemorySame(s: State, d: nat)
    ensures SameUserMemory(s, s, d)
  {
  }

  lemma YieldKept(b: Snap, a: Snap, proc: seq<Proc>, i: nat)
    requires Tables(b.k) && |proc| == NPROC && Yielded(b, a, proc) && i < NPROC && SameProc(b.k.proc[i], proc[i])
    ensures SameProcess(b, a, i)
  {
    hide ScanFrom, SameUserMemory;
    MemorySame(b.s, b.k.proc[i].pgdir / PAGESIZE);
  }

  lemma ExitKept(b: Snap, i: nat)
    requires Tables(b.k) && i < NPROC && SlotSane(b.k.proc[i]) && b.k.proc[i].stat != UNUSED && Awake(b.k)
    ensures |Exited(b.k.proc, b.k.procp)| == NPROC && SameProc(b.k.proc[i], Exited(b.k.proc, b.k.procp)[i])
  {
  }

  lemma StoreKept(env: Env, b: Snap, a: Snap, va: word, x: byte, i: nat)
    requires InOrder(env, b) && 0 < i < NPROC && b.k.proc[i].stat != UNUSED && i != b.k.procp && Stored(b, a, va, x)
    ensures SameProcess(b, a, i)
  {
    hide InOrder, Good, Wrote, SameUserMemory, UserWritable;
    OrderFacts(env, b, i);
    var d := b.k.proc[i].pgdir / PAGESIZE;
    MemorySame(b.s, d);
    if a != b {
      WroteElsewhere(env.kend, b.s, a.s, b.k.cr3 / PAGESIZE, d, va, [x]);
    }
  }

  lemma ForkKept(env: Env, b: Snap, a: Snap, i: nat)
    requires InOrder(env, b) && 0 < i < NPROC && b.k.proc[i].stat != UNUSED && Tables(b.k) && Forked(b, a, env.rodata)
    ensures SameProcess(b, a, i)
  {
    hide InOrder, Good, CopyOf, LeftBehind, SameUserMemory, ForkWorks, TakeStack, AfterFailure, ForkCost, PAllocWorks;
    OrderFacts(env, b, i);
    var d := b.k.proc[i].pgdir / PAGESIZE;
    if ForkWorks(b) {
      var c :| 0 <= c < |a.k.proc| && ForkedInto(b.k, a.k, b.s, a.s, env.rodata, c);
      CopyElsewhere(env.kend, b.s, a.s, env.rodata, c, b.k.proc[b.k.procp].pgdir / PAGESIZE,
        a.k.proc[c].pgdir / PAGESIZE, PagesOf(b.k), d);
    } else {
      LeftElsewhere(env.kend, b.s, a.s, d);
    }
  }

  lemma ExecKept(env: Env, b: Snap, a: Snap, pathArg: word, argvArg: word, r: int, i: nat)
    requires InOrder(env, b) && 0 < i < NPROC && b.k.proc[i].stat != UNUSED && i != b.k.procp
    requires ExecMade(env, b, a, pathArg, argvArg, r)
    ensures SameProcess(b, a, i)
  {
    hide InOrder, Good, SameUserMemory, Ran, CanName, NameLookup, Runnable, HasString, HasArgs, ExecNamed;
    OrderFacts(env, b, i);
    MemorySame(b.s, b.k.proc[i].pgdir / PAGESIZE);
    if a.k != b.k || a.s != b.s {
      var f, args := ExecutedFile(env, b, a, pathArg, argvArg, r);
      ExecutedKept(env, b, a, f, args, r, i);
    }
  }

  /** File f was run. */
  ghost predicate Ran(env: Env, b: Snap, a: Snap, f: seq<byte>, args: seq<seq<byte>>, r: int) {
    exists t :: Executed(b.(inode := t), a, env.rodata, f, args, r)
  }

  lemma NamedRan(env: Env, b: Snap, a: Snap, path: seq<byte>, args: seq<seq<byte>>, r: int) returns (f: seq<byte>)
    requires CanName(b.inode, env.flat) && path != [] && ExecNamed(env, b, a, path, args, r)
    requires (a.k != b.k || a.s != b.s)
    ensures Ran(env, b, a, f, args, r)
  {
    hide Executed, CanName, NameLookup, Disk.Readable, UserSegments, Executable, AreArgs, Fits, Disk.FileByte;
    var (t, ip) := NameLookup(b.inode, env.flat, path);
    f := Disk.FileBytes(env.flat, t[ip.slot].d);
    assert Executed(b.(inode := t), a, env.rodata, f, args, r);
  }

  /** If execv did anything to the machine, it ran a file. */
  lemma ExecutedFile(env: Env, b: Snap, a: Snap, pathArg: word, argvArg: word, r: int)
    returns (f: seq<byte>, args: seq<seq<byte>>)
    requires ExecMade(env, b, a, pathArg, argvArg, r) && (a.k != b.k || a.s != b.s)
    ensures Ran(env, b, a, f, args, r)
  {
    hide ExecNamed, CanName, HasString, HasArgs, StringAt, ArgsAt, Ran;
    var d := b.k.cr3 / PAGESIZE;
    var path, arguments :|
      StringAt(b.s, d, pathArg, path) && ArgsAt(b.s, d, ArgPtr(argvArg), arguments)
      && path != [] && ExecNamed(env, b, a, path, arguments, r);
    args := arguments;
    f := NamedRan(env, b, a, path, args, r);
  }

  lemma ExecutedKept(env: Env, b: Snap, a: Snap, f: seq<byte>, args: seq<seq<byte>>, r: int, i: nat)
    requires InOrder(env, b) && 0 < i < NPROC && b.k.proc[i].stat != UNUSED && i != b.k.procp
    requires Ran(env, b, a, f, args, r)
    ensures SameProcess(b, a, i)
  {
    hide InOrder, Good, SameUserMemory, LeftBehind, Replaced, KernelHalf;
    OrderFacts(env, b, i);
    var d := b.k.proc[i].pgdir / PAGESIZE;
    if r == 0 {
      ReplacedElsewhere(env.kend, b.s, a.s, b.k.proc[b.k.procp].pgdir / PAGESIZE, a.k.cr3 / PAGESIZE, d);
    } else {
      LeftElsewhere(env.kend, b.s, a.s, d);
    }
  }

  lemma CollectKept(env: Env, b: Snap, a: Snap, i: nat)
    requires InOrder(env, b) && 0 < i < NPROC && b.k.proc[i].stat != UNUSED && Tables(b.k)
    requires Collected(b.k, a.k, b.s, a.s) && !Collectable(b.k.proc[i], b.k.procp)
    ensures SameProcess(b, a, i)
  {
    hide InOrder, Good, SameUserMemory, ZombiesGone, CountsOnly;
    OrderFacts(env, b, i);
    ZombiesHaveSpaces(env, b);
    CollectedElsewhere(env.kend, b.k.proc, b.k.procp, b.s, a.s, i);
  }

  lemma ZombiesHaveSpaces(env: Env, b: Snap)
    requires InOrder(env, b)
    ensures |b.k.proc| == NPROC
    ensures forall j :: 0 <= j < NPROC && Collectable(b.k.proc[j], b.k.procp) ==> b.k.proc[j].pgdir != 0
  {
    hide Good, FilesCounted, MemInv, DirSane, TableOk;
    forall j | 0 <= j < NPROC && Collectable(b.k.proc[j], b.k.procp)
      ensures b.k.proc[j].pgdir != 0
    {
      assert j != 0 ==> SlotSane(b.k.proc[j]);
    }
  }

  lemma ReadKept(env: Env, b: Snap, a: Snap, fd: int, arg: word, size: int, i: nat)
    requires InOrder(env, b) && 0 < i < NPROC && b.k.proc[i].stat != UNUSED && i != b.k.procp
    requires ReadMade(env, b, a, fd, arg, size)
    ensures SameProcess(b, a, i)
  {
    hide InOrder, Good, Wrote, SameUserMemory, ReadReady, OnDisk, InodeAt, Disk.FileByte;
    OrderFacts(env, b, i);
    var d := b.k.proc[i].pgdir / PAGESIZE;
    MemorySame(b.s, d);
    if a != b && a.s != b.s {
      var r :| ReadEffect(env.flat, b.inode, b.k, a.k, b.s, a.s, fd, arg, size, r);
      var f := FileOf(b.k, fd).value;
      var at := b.k.file[f].offset;
      WroteElsewhere(env.kend, b.s, a.s, b.k.cr3 / PAGESIZE, d, arg,
        Disk.FileBytes(env.flat, InodeAt(b.k.file, b.inode, f))[at..at + r]);
    }
  }

  /** open and close change the descriptors of the running process only. */
  lemma OpenKept(env: Env, b: Snap, a: Snap, pathArg: word, r: int, i: nat)
    requires InOrder(env, b) && 0 < i < NPROC && b.k.proc[i].stat != UNUSED && Awake(b.k)
    requires OpenMade(env, b, a, pathArg, r)
    ensures SameProcess(b, a, i)
  {
    hide InOrder, Good, SameUserMemory, CanName, NameLookup, HasString, NoEntry;
    OrderFacts(env, b, i);
    MemorySame(b.s, b.k.proc[i].pgdir / PAGESIZE);
    if a.k != b.k {
      var path :| path != [] && OpenNamed(env, b, a, path, r);
    }
  }

  lemma CloseKept(env: Env, b: Snap, a: Snap, fd: int, i: nat)
    requires InOrder(env, b) && 0 < i < NPROC && b.k.proc[i].stat != UNUSED && Tables(b.k) && Awake(b.k)
    requires CloseDone(b, a, fd)
    ensures SameProcess(b, a, i)
  {
    hide InOrder, Good, SameUserMemory;
    OrderFacts(env, b, i);
    MemorySame(b.s, b.k.proc[i].pgdir / PAGESIZE);
  }

  /** An event in which a process has no part leaves it and its memory alone. */
  lemma StepKeeps(env: Env, e: Event, b: Snap, a: Snap, i: nat)
    requires InOrder(env, b) && Effect(env, e, b, a) && Proper(e) && 0 < i < NPROC && b.k.proc[i].stat != UNUSED
    requires !Touches(e, b, i)
    ensures SameProcess(b, a, i)
  {
    hide InOrder, Good, SameUserMemory, Stored, Forked, ExecMade, Collected, OpenMade, CloseDone, ReadMade, SchedStep,
         Woken, Exited, Yielded;
    OrderFacts(env, b, i);
    MemorySame(b.s, b.k.proc[i].pgdir / PAGESIZE);
    if ByProcess(e) && !Awake(b.k) {
      return;
    }
    match e {
      case TimerEvent =>
        YieldedIs(b, a, b.k.proc);
        YieldKept(b, a, b.k.proc, i);
      case WakeEvent(chan) =>
        WokenKept(b.k.proc, b.k.proc, chan, i);
      case StoreEvent(va, x) =>
        StoreKept(env, b, a, va, x, i);
      case ForkEvent =>
        ForkKept(env, b, a, i);
      case ExecEvent(path, argv) =>
        var r :| ExecMade(env, b, a, path, argv, r);
        ExecKept(env, b, a, path, argv, r, i);
      case ExitEvent =>
        ExitKept(b, i);
        YieldKept(b, a, Exited(b.k.proc, b.k.procp), i);
      case WaitEvent =>
        YieldKept(b, a, Asleep(b.k, ProcChan(b.k.procp)), i);
      case SleepEvent(chan) =>
        YieldKept(b, a, Asleep(b.k, chan), i);
      case CollectEvent =>
        CollectKept(env, b, a, i);
      case OpenEvent(path) =>
        var r :| OpenMade(env, b, a, path, r);
        OpenKept(env, b, a, path, r, i);
      case CloseEvent(fd) =>
        CloseKept(env, b, a, fd, i);
      case ReadEvent(fd, arg, size) =>
        ReadKept(env, b, a, fd, arg, size, i);
    }
  }

  lemma YieldedIs(b: Snap, a: Snap, proc: seq<Proc>)
    requires Tables(b.k) && proc == b.k.proc && a == b.(k := SchedStep(b.k).0)
    ensures Yielded(b, a, proc)
  {
  }

  // ---- what a step loses ---------------------------------------------------------------------

  /** How many of the first n slots the process in slot `me` collects. */
  function Collections(proc: seq<Proc>, me: nat, n: nat): nat
    requires n <= |proc|
  {
    if n == 0 then 0 else Collections(proc, me, n - 1) + if Collectable(proc[n - 1], me) then 1 else 0
  }

  /** The pages lost in a step: 128 kernel tables for every zombie collected and every program replaced, and what a
      failed fork or execv does not give back. */
  function LostBy(e: Event, b: Snap, a: Snap): int {
    match e
    case CollectEvent => if Awake(b.k) then KTABS * Collections(b.k.proc, b.k.procp, |b.k.proc|) else 0
    case ExecEvent(_, _) => if a.k.cr3 != b.k.cr3 then KTABS else |b.s.free| - |a.s.free|
    case ForkEvent => if a.k.forks != b.k.forks then 0 else |b.s.free| - |a.s.free|
    case _ => 0
  }

  lemma LeftCount(kend: nat, s: State, t: State)
    requires LeftBehind(s, t) && Good(kend, s) && Good(kend, t)
    ensures |RetiredPages(t)| == |RetiredPages(s)| + |s.free| - |t.free|
  {
    hide Good;
    FreeCount(kend, s);
    FreeCount(kend, t);
    assert FreePages(t) + RetiredPages(t) == FreePages(s) + RetiredPages(s);
    assert FreePages(t) !! RetiredPages(t) && FreePages(s) !! RetiredPages(s);
    assert |FreePages(t) + RetiredPages(t)| == |FreePages(t)| + |RetiredPages(t)|;
  }

  lemma CopyLosesNothing(kend: nat, s0: State, s: State, rodata: nat, i: nat, d: nat, e: nat, n: nat)
    requires |s0.mem| == |s0.owner| == NP && s0.free != [] && s0.free[|s0.free| - 1] < NP && s0.head / PAGESIZE < NP
    requires CopyOf(TakeStack(s0, i), s, d, e, rodata, n) && Good(kend, s0)
    ensures RetiredPages(s) == RetiredPages(s0)
  {
    hide Good, KernelHalf, Holds, UserPagesThere;
    FreeTop(kend, s0);
    TakeStackPages(s0, i);
  }

  lemma ForkLoses(env: Env, b: Snap, a: Snap)
    requires InOrder(env, b) && Good(env.kend, a.s) && Tables(b.k) && Forked(b, a, env.rodata)
    ensures |RetiredPages(a.s)| == |RetiredPages(b.s)| + LostBy(ForkEvent, b, a)
  {
    hide InOrder, Good, CopyOf, LeftBehind, ForkWorks, TakeStack, AfterFailure, ForkCost, PAllocWorks, RetiredPages;
    RunningFacts(env, b);
    if ForkWorks(b) {
      var c :| 0 <= c < |a.k.proc| && ForkedInto(b.k, a.k, b.s, a.s, env.rodata, c);
      CopyLosesNothing(env.kend, b.s, a.s, env.rodata, c, b.k.proc[b.k.procp].pgdir / PAGESIZE,
        a.k.proc[c].pgdir / PAGESIZE, PagesOf(b.k));
    } else {
      LeftCount(env.kend, b.s, a.s);
    }
  }

  /** The kernel tables of a live process are 128. */
  lemma LiveTables(env: Env, b: Snap, i: nat)
    requires InOrder(env, b) && 0 < i < NPROC && b.k.proc[i].stat != UNUSED
    ensures |KernelTablePages(b.s, b.k.proc[i].pgdir / PAGESIZE)| == KTABS
  {
    hide Good, FilesCounted, DirSane, TableOk, KernelTablePages;
    OrderFacts(env, b, i);
    assert SlotMem(b.s, env.rodata, i, b.k.proc[i]);
    KernelTableCount(env.kend, b.s, b.k.proc[i].pgdir / PAGESIZE);
    KernelSlotCount(b.s.spaces[b.k.proc[i].pgdir / PAGESIZE].tabs);
  }

  lemma ReplacedLoses(s0: State, s: State, d: nat, e: nat)
    requires Replaced(s0, s, d, e)
    ensures |RetiredPages(s)| == |RetiredPages(s0)| + |KernelTablePages(s0, d)|
  {
    assert RetiredPages(s) == RetiredPages(s0) + KernelTablePages(s0, d);
    assert RetiredPages(s0) !! KernelTablePages(s0, d);
  }

  lemma ExecLoses(env: Env, b: Snap, a: Snap, f: seq<byte>, args: seq<seq<byte>>, r: int)
    requires InOrder(env, b) && Good(env.kend, a.s) && Ran(env, b, a, f, args, r) && Awake(b.k)
    ensures |RetiredPages(a.s)| == |RetiredPages(b.s)| + if a.k.cr3 != b.k.cr3 then KTABS else |b.s.free| - |a.s.free|
  {
    hide InOrder, Good, LeftBehind, Replaced, KernelHalf, RetiredPages, KernelTablePages;
    RunningFacts(env, b);
    if r == 0 {
      LiveTables(env, b, b.k.procp);
      ReplacedLoses(b.s, a.s, b.k.proc[b.k.procp].pgdir / PAGESIZE, a.k.cr3 / PAGESIZE);
    } else {
      LeftCount(env.kend, b.s, a.s);
    }
  }

  lemma RunningFacts(env: Env, b: Snap)
    requires InOrder(env, b)
    ensures 0 < b.k.procp < NPROC == |b.k.proc| && b.k.proc[b.k.procp].stat != UNUSED
    ensures Good(env.kend, b.s) && b.k.cr3 / PAGESIZE in b.s.spaces
  {
    hide Good;
    OrderFacts(env, b, b.k.procp);
  }

  /** The kernel tables of the first n slots that are collected. */
  ghost function ZombieTables(proc: seq<Proc>, me: nat, n: nat, s: State): set<nat>
    requires n <= |proc|
  {
    set p | 0 <= p < |s.owner| && s.owner[p].Tab? && s.owner[p].slot < USLOT && ZombiePage(proc, me, n, s.owner[p])
  }

  lemma {:induction false} ZombieTablesCount(env: Env, b: Snap, n: nat)
    requires InOrder(env, b) && n <= NPROC == |b.k.proc|
    ensures |ZombieTables(b.k.proc, b.k.procp, n, b.s)| == KTABS * Collections(b.k.proc, b.k.procp, n)
  {
    hide InOrder, ZombiePage, KernelTablePages, ZombieTables;
    if n == 0 {
      NoZombieTables(b.k.proc, b.k.procp, b.s);
    } else {
      ZombieTablesCount(env, b, n - 1);
      ZombieTablesNext(env, b, n - 1);
      if Collectable(b.k.proc[n - 1], b.k.procp) {
        CollectableLive(env, b, n - 1);
        LiveTables(env, b, n - 1);
      }
    }
  }

  lemma NoZombieTables(proc: seq<Proc>, me: nat, s: State)
    ensures ZombieTables(proc, me, 0, s) == {}
  {
  }

  /** Slot 0 is nobody's child. */
  lemma CollectableLive(env: Env, b: Snap, i: nat)
    requires InOrder(env, b) && i < NPROC == |b.k.proc| && Collectable(b.k.proc[i], b.k.procp)
    ensures 0 < i
  {
    hide Good, FilesCounted, MemInv, DirSane, TableOk;
  }

  lemma ZombieTablesNext(env: Env, b: Snap, i: nat)
    requires InOrder(env, b) && i < NPROC == |b.k.proc|
    ensures var proc, me, s, d := b.k.proc, b.k.procp, b.s, b.k.proc[i].pgdir / PAGESIZE;
            |ZombieTables(proc, me, i + 1, s)|
            == |ZombieTables(proc, me, i, s)| + if Collectable(proc[i], me) then |KernelTablePages(s, d)| else 0
  {
    hide InOrder, ZombiePage;
    var proc, me, s, d := b.k.proc, b.k.procp, b.s, b.k.proc[i].pgdir / PAGESIZE;
    forall o: Owner
      ensures ZombiePage(proc, me, i + 1, o) <==>
                ZombiePage(proc, me, i, o) || (Collectable(proc[i], me) && Belongs(o, proc[i], i))
    {
      ZombiePageNext(proc, me, i, o);
    }
    if Collectable(proc[i], me) {
      CollectableLive(env, b, i);
      OrderFacts(env, b, i);
      assert ZombieTables(proc, me, i + 1, s) == ZombieTables(proc, me, i, s) + KernelTablePages(s, d);
      ZombieTablesApart(proc, me, i, s);
    } else {
      assert ZombieTables(proc, me, i + 1, s) == ZombieTables(proc, me, i, s);
    }
  }

  lemma ZombieTablesApart(proc: seq<Proc>, me: nat, i: nat, s: State)
    requires i < |proc| == NPROC
    requires forall j :: 0 <= j < NPROC && j != i && proc[j].pgdir != 0 ==>
               proc[j].pgdir / PAGESIZE != proc[i].pgdir / PAGESIZE
    ensures ZombieTables(proc, me, i, s) !! KernelTablePages(s, proc[i].pgdir / PAGESIZE)
  {
  }

  lemma RetiredIsNobodys(proc: seq<Proc>, me: nat, o: Owner)
    requires o.Retired? && |proc| == NPROC
    ensures !ZombiePage(proc, me, NPROC, o)
  {
  }

  lemma CollectLoses(env: Env, b: Snap, a: Snap)
    requires InOrder(env, b) && Awake(b.k) && Collected(b.k, a.k, b.s, a.s)
    ensures |RetiredPages(a.s)| == |RetiredPages(b.s)| + LostBy(CollectEvent, b, a)
  {
    hide InOrder, ZombiePage, SpacesOfZombiesGone, CountsOnly;
    ZombieTablesCount(env, b, NPROC);
    var tables := ZombieTables(b.k.proc, b.k.procp, NPROC, b.s);
    forall o: Owner | o.Retired?
      ensures !ZombiePage(b.k.proc, b.k.procp, NPROC, o)
    {
      RetiredIsNobodys(b.k.proc, b.k.procp, o);
    }
    assert RetiredPages(a.s) == RetiredPages(b.s) + tables;
    assert RetiredPages(b.s) !! tables;
  }

  /** Every step loses exactly what LostBy says. */
  lemma StepLoses(env: Env, e: Event, b: Snap, a: Snap)
    requires InOrder(env, b) && Effect(env, e, b, a) && Good(env.kend, a.s)
    ensures |RetiredPages(a.s)| == |RetiredPages(b.s)| + LostBy(e, b, a)
  {
    hide InOrder, Good, Forked, ExecMade, Collected, OpenMade, CloseDone, ReadMade, SchedStep, Woken, Exited,
         RetiredPages, UserWritable, Collections;
    if ByProcess(e) && !Awake(b.k) {
      return;
    }
    match e {
      case StoreEvent(va, x) =>
        StoreLosesNothing(b, a, va, x);
      case ForkEvent =>
        ForkLoses(env, b, a);
      case ExecEvent(path, argv) =>
        if a.k != b.k || a.s != b.s {
          var r :| ExecMade(env, b, a, path, argv, r);
          var f, args := ExecutedFile(env, b, a, path, argv, r);
          ExecLoses(env, b, a, f, args, r);
        }
      case CollectEvent =>
        CollectLoses(env, b, a);
      case OpenEvent(path) =>
        var r :| OpenMade(env, b, a, path, r);
        OpenLosesNothing(env, b, a, path, r);
      case CloseEvent(fd) =>
        CloseLosesNothing(b, a, fd);
      case ReadEvent(fd, arg, size) =>
        ReadLosesNothing(env, b, a, fd, arg, size);
      case _ =>
    }
  }

  lemma StoreLosesNothing(b: Snap, a: Snap, va: word, x: byte)
    requires Stored(b, a, va, x)
    ensures RetiredPages(a.s) == RetiredPages(b.s)
  {
  }

  lemma OpenLosesNothing(env: Env, b: Snap, a: Snap, path: word, r: int)
    requires OpenMade(env, b, a, path, r)
    ensures a.s == b.s
  {
    hide CanName, NameLookup, HasString, NoEntry, Opened;
  }

  lemma CloseLosesNothing(b: Snap, a: Snap, fd: int)
    requires Tables(b.k) && CloseDone(b, a, fd)
    ensures a.s == b.s
  {
  }

  lemma ReadLosesNothing(env: Env, b: Snap, a: Snap, fd: int, arg: word, size: int)
    requires ReadMade(env, b, a, fd, arg, size)
    ensures RetiredPages(a.s) == RetiredPages(b.s)
  {
    hide ReadAllowed, OnDisk, Disk.FileBytes, Disk.Readable;
  }

  // ---- runs ----------------------------------------------------------------------------------

  /** Step i of a run: from a state in order, event i has its effect. */
  ghost predicate StepAt(env: Env, events: seq<Event>, trace: seq<Snap>, i: nat)
    requires i < |events| && i + 1 < |trace|
  {
    InOrder(env, trace[i]) && Proper(events[i]) && Effect(env, events[i], trace[i], trace[i + 1])
  }

  ghost predicate IsRun(env: Env, events: seq<Event>, trace: seq<Snap>) {
    0 < |trace| <= |events| + 1 && forall i :: 0 <= i < |trace| - 1 ==> StepAt(env, events, trace, i)
  }

  /** How a run ends: all events have happened and the machine is in order, or an exit has left nobody to run. */
  ghost predicate Ends(env: Env, events: seq<Event>, trace: seq<Snap>, going: bool)
    requires 0 < |trace| <= |events| + 1
  {
    var last := trace[|trace| - 1];
    if going then |trace| == |events| + 1 && InOrder(env, last)
    else 1 < |trace| && events[|trace| - 2].ExitEvent? && Stopped(last.k)
  }

  ghost predicate TouchedAt(events: seq<Event>, trace: seq<Snap>, m: nat, i: nat)
    requires m < |events| && m < |trace|
  {
    i < |trace[m].k.proc| && Touches(events[m], trace[m], i)
  }

  lemma RunLength(env: Env, events: seq<Event>, trace: seq<Snap>)
    requires IsRun(env, events, trace)
    ensures 0 < |trace| <= |events| + 1
  {
  }

  lemma StepOf(env: Env, events: seq<Event>, trace: seq<Snap>, i: nat)
    requires IsRun(env, events, trace) && i + 1 < |trace|
    ensures i < |events| && InOrder(env, trace[i]) && Proper(events[i])
    ensures Effect(env, events[i], trace[i], trace[i + 1])
  {
    hide InOrder, Effect, Proper;
    assert StepAt(env, events, trace, i);
  }

  lemma SameProcessTransitive(a: Snap, b: Snap, c: Snap, i: nat)
    requires SameProcess(a, b, i) && SameProcess(b, c, i)
    ensures SameProcess(a, c, i)
  {
    hide UserAddr, UserByte;
  }

  lemma SameProcessSelf(a: Snap, i: nat)
    requires i < |a.k.proc| && a.k.proc[i].stat != UNUSED
    ensures SameProcess(a, a, i)
  {
  }

  /** Over any stretch of a run in which a process makes no store, execv or read and is not collected, its slot is
      its own and every byte of its memory stays what it was, whatever all the others do. */
  lemma {:induction false} Untouched(env: Env, events: seq<Event>, trace: seq<Snap>, i: nat, from: nat, to: nat)
    requires IsRun(env, events, trace) && from <= to < |trace| && 0 < i < NPROC
    requires i < |trace[from].k.proc| && trace[from].k.proc[i].stat != UNUSED
    requires forall m :: from <= m < to ==> !TouchedAt(events, trace, m, i)
    ensures SameProcess(trace[from], trace[to], i)
  {
    hide InOrder, Effect, Touches, SameUserMemory, IsRun, Proper;
    if from == to {
      SameProcessSelf(trace[from], i);
    } else {
      Untouched(env, events, trace, i, from, to - 1);
      StepOf(env, events, trace, to - 1);
      assert !TouchedAt(events, trace, to - 1, i);
      StepKeeps(env, events[to - 1], trace[to - 1], trace[to], i);
      SameProcessTransitive(trace[from], trace[to - 1], trace[to], i);
    }
  }

  /** At step m the process in slot pproc collects its zombies. */
  ghost predicate ParentCollects(events: seq<Event>, trace: seq<Snap>, m: nat, pproc: Option<nat>)
    requires m < |events| && m < |trace|
  {
    events[m].CollectEvent? && Awake(trace[m].k) && pproc == Some(trace[m].k.procp)
  }

  lemma NotRunning(env: Env, b: Snap, z: nat)
    requires InOrder(env, b) && z < |b.k.proc| && b.k.proc[z].stat == ZOMB
    ensures z != b.k.procp
  {
    hide Good, FilesCounted, MemInv, DirSane, TableOk;
  }

  /** A zombie stays as it is, with all its memory, until the process in its parent's slot collects it. */
  lemma {:induction false} ZombieUntilCollected(env: Env, events: seq<Event>, trace: seq<Snap>, z: nat, from: nat,
      to: nat)
    requires IsRun(env, events, trace) && from <= to < |trace| && 0 < z < NPROC
    requires z < |trace[from].k.proc| && trace[from].k.proc[z].stat == ZOMB
    requires forall m :: from <= m < to ==> !ParentCollects(events, trace, m, trace[from].k.proc[z].pproc)
    ensures SameProcess(trace[from], trace[to], z) && trace[to].k.proc[z] == trace[from].k.proc[z]
  {
    hide InOrder, Effect, SameUserMemory, IsRun, Proper;
    if from == to {
      SameProcessSelf(trace[from], z);
    } else {
      ZombieUntilCollected(env, events, trace, z, from, to - 1);
      StepOf(env, events, trace, to - 1);
      assert !ParentCollects(events, trace, to - 1, trace[from].k.proc[z].pproc);
      NotRunning(env, trace[to - 1], z);
      StepKeeps(env, events[to - 1], trace[to - 1], trace[to], z);
      SameProcessTransitive(trace[from], trace[to - 1], trace[to], z);
    }
  }

  /** All that has been lost in the first n steps. */
  function TotalLost(events: seq<Event>, trace: seq<Snap>, n: nat): int
    requires n < |trace| <= |events| + 1
  {
    if n == 0 then 0 else TotalLost(events, trace, n - 1) + LostBy(events[n - 1], trace[n - 1], trace[n])
  }

  lemma GoodInOrder(env: Env, b: Snap)
    requires InOrder(env, b)
    ensures Good(env.kend, b.s) && Steady(env.kend, env.rodata, b.k, b.s)
  {
    hide Good;
  }

  lemma {:induction false} RetiredTotal(env: Env, events: seq<Event>, trace: seq<Snap>, n: nat)
    requires IsRun(env, events, trace) && n < |trace| && InOrder(env, trace[n])
    ensures |RetiredPages(trace[n].s)| == |RetiredPages(trace[0].s)| + TotalLost(events, trace, n)
  {
    hide InOrder, Effect, LostBy, RetiredPages, Good, IsRun, Proper;
    RunLength(env, events, trace);
    if n > 0 {
      StepOf(env, events, trace, n - 1);
      RetiredTotal(env, events, trace, n - 1);
      GoodInOrder(env, trace[n]);
      StepLoses(env, events[n - 1], trace[n - 1], trace[n]);
    }
  }

  /** Conservation over runs: at every moment every page from kernel_end up is free, or in use by a process, or was lost
      in one of the steps so far. */
  lemma RunConserves(env: Env, events: seq<Event>, trace: seq<Snap>, n: nat)
    requires IsRun(env, events, trace) && n < |trace| && InOrder(env, trace[n]) && RetiredPages(trace[0].s) == {}
    ensures var x := trace[n];
            && |x.k.proc| == NPROC
            && NP - env.kend == |x.s.free| + AllHoldings(x.k, x.s, NPROC) + TotalLost(events, trace, n)
  {
    hide InOrder, Good, Steady, IsRun, RetiredPages, AllHoldings, TotalLost;
    GoodInOrder(env, trace[n]);
    Conserved(env.kend, env.rodata, trace[n].k, trace[n].s);
    RetiredTotal(env, events, trace, n);
  }
}
