/** Runs of the whole kernel: whatever happens in whatever order, every step has its effect and the invariant holds. */
module Runs {
  import opened Memory
  import opened Paging
  import opened Forking
  import opened Virtual
  import opened UserStack
  import opened UserMemory
  import opened ProcTable
  import opened Sched
  import opened Files
  import opened SwitchCalls
  import opened ProcCalls
  import opened ForkCall
  import opened UserMode
  import opened Boot
  import opened Disk
  import opened BlockCache
  import opened Inodes
  import opened ReadCall
  import opened Naming
  import opened Effects
  import opened PathCalls
  import opened Losses
  import opened Traces

  lemma SteadyTables(kend: nat, rodata: nat, k: KState, s: State)
    requires Steady(kend, rodata, k, s)
    ensures ProcsSane(k.proc) && Tables(k) && 0 < k.procp && |k.file| == NFILE
    ensures Awake(k) ==> |k.proc[k.procp].ofile| == NOFILE
  {
    assert SlotSane(k.proc[k.procp]);
  }

  /** Can this read be made? */
  method MayRead(k: Kernel, fs: FileSystem, fd: int, arg: word, size: int) returns (ok: bool)
    requires k.Valid() && Awake(k.KView()) && FsReady(fs) && size < 0x8000_0000
    modifies k.m.mem, k.m`coremap, k.m`free, k.m`owner, k.m`spaces
    ensures k.m.View() == old(k.m.View())
    ensures ok <==> ReadAllowed(EnvOf(k, fs), Now(k, fs), fd, arg, size)
  {
    hide Good, Steady, CacheOk, TableOk, Readable, HasRoot, UserRange, HeldBufs, UserAddr;
    SteadyTables(k.m.kend, k.m.rodata, k.KView(), k.m.View());
    if fd < 0 || fd >= NOFILE || k.proc[k.procp].ofile[fd] == None || ArgPtr(arg) == 0 || size < 0 {
      return true;
    }
    var f := k.proc[k.procp].ofile[fd].value;
    if !OnDisk(k.file[..], fs.inode[..], f) {
      return false;
    }
    var ip := InodeAt(k.file[..], fs.inode[..], f);
    SizeBound(ip);
    LoadedSpace(k.m.kend, k.m.rodata, k.KView(), k.m.View());
    ok := Mapped(k.m, k.cr3, arg, ReadLength(ip, k.file[f].offset, size));
  }

  /** A read, if it can be made. */
  method TryRead(k: Kernel, fs: FileSystem, fd: int, arg: word, size: int)
    requires k.Valid() && Awake(k.KView()) && FsReady(fs) && size < 0x8000_0000
    modifies k.file, fs.cache.blocks, fs.cache`disk, k.m.mem, k.m`coremap, k.m`free, k.m`owner, k.m`spaces
    ensures k.Valid() && FsReady(fs) && EnvOf(k, fs) == old(EnvOf(k, fs))
    ensures ReadMade(EnvOf(k, fs), old(Now(k, fs)), Now(k, fs), fd, arg, size)
  {
    hide Good, Steady, CacheOk, TableOk, Readable, HasRoot, UserRange, HeldBufs, ReadEffect, ReadReady;
    ghost var b := Now(k, fs);
    var ok := MayRead(k, fs, fd, arg, size);
    assert Now(k, fs) == b;
    if ok {
      var r := Read(k, fs, fd, arg, size);
      assert ReadEffect(fs.cache.flat, fs.inode[..], b.k, k.KView(), b.s, k.m.View(), fd, arg, size, r);
    }
  }

  /** A close, unless it is one of a descriptor that is not open. */
  method TryClose(k: Kernel, fs: FileSystem, fd: int)
    requires k.Valid() && Awake(k.KView()) && FsReady(fs)
    modifies k.proc, k.file
    ensures k.Valid() && FsReady(fs) && CloseDone(old(Now(k, fs)), Now(k, fs), fd)
  {
    hide Good, Steady, ProcsSane, SlotSane, CacheOk, TableOk, HasRoot, HeldBufs, OnlyNamed, DirSane;
    SteadyTables(k.m.kend, k.m.rodata, k.KView(), k.m.View());
    if 2 <= fd < NOFILE && k.proc[k.procp].ofile[fd] == None {
      return;
    }
    var _ := Close(k, fd);
  }

  /** A system call that works on files. */
  method FileCall(k: Kernel, fs: FileSystem, e: Event)
    requires k.Valid() && Awake(k.KView()) && Proper(e) && FsReady(fs)
    requires e.ExecEvent? || e.OpenEvent? || e.CloseEvent? || e.ReadEvent?
    modifies k.proc, k`cr3, k.file, k.m.mem, k.m`coremap, k.m`free, k.m`owner, k.m`spaces
    modifies fs.inode, fs.cache.blocks, fs.cache`disk
    ensures k.Valid() && FsReady(fs) && EnvOf(k, fs) == old(EnvOf(k, fs))
    ensures Effect(EnvOf(k, fs), e, old(Now(k, fs)), Now(k, fs))
  {
    hide Good, Steady, ProcsSane, SlotSane, ReadMade, CacheOk, TableOk, HasRoot, HeldBufs, OpenMade, ExecMade,
         CloseDone, OnlyNamed, DirSane;
    ghost var b := Now(k, fs);
    SteadyTables(k.m.kend, k.m.rodata, b.k, b.s);
    match e {
      case ExecEvent(path, argv) =>
        var r := ExecPath(k, fs, path, argv);
        assert ExecMade(EnvOf(k, fs), b, Now(k, fs), path, argv, r);
      case OpenEvent(path) =>
        var r := OpenPath(k, fs, path);
        assert OpenMade(EnvOf(k, fs), b, Now(k, fs), path, r);
      case CloseEvent(fd) =>
        TryClose(k, fs, fd);
      case ReadEvent(fd, arg, size) =>
        TryRead(k, fs, fd, arg, size);
    }
  }

  /** A system call of a process that is not asleep, or a store by its program. */
  method Call(k: Kernel, fs: FileSystem, e: Event) returns (going: bool)
    requires k.Valid() && Awake(k.KView()) && Proper(e) && ByProcess(e) && FsReady(fs)
    modifies k, k.proc, k.file, k.m.mem, k.m`coremap, k.m`free, k.m`owner, k.m`spaces
    modifies fs.inode, fs.cache.blocks, fs.cache`disk
    ensures going ==> k.Valid()
    ensures FsReady(fs) && EnvOf(k, fs) == old(EnvOf(k, fs))
    ensures Effect(EnvOf(k, fs), e, old(Now(k, fs)), Now(k, fs))
    ensures !going ==> e.ExitEvent? && Stopped(k.KView())
  {
    hide Good, Steady, Woken, Exited, ProcsSane, SlotSane, ForkedInto, ForkFailed, SchedStep, UserWritable, Wrote,
         Collected, ForkCost, PagesOf, HasUnused, ReadMade, CacheOk, TableOk, HasRoot, HeldBufs, OpenMade, ExecMade,
         CloseDone, OnlyNamed, DirSane;
    ghost var b := Now(k, fs);
    SteadyTables(k.m.kend, k.m.rodata, b.k, b.s);
    going := true;
    match e {
      case StoreEvent(va, x) =>
        var _ := UserStore(k, va, x);
      case ForkEvent =>
        var _ := Fork(k);
      case ExitEvent =>
        var outcome := Exit(k);
        going := outcome == Switches;
        ExitStops(b.k);
      case WaitEvent =>
        var _ := Sleep(k, ProcChan(k.procp));
      case SleepEvent(chan) =>
        var _ := Sleep(k, chan);
      case CollectEvent =>
        CollectZombies(k);
      case ExecEvent(_, _) =>
        FileCall(k, fs, e);
      case OpenEvent(_) =>
        FileCall(k, fs, e);
      case CloseEvent(_) =>
        FileCall(k, fs, e);
      case ReadEvent(_, _, _) =>
        FileCall(k, fs, e);
    }
  }

  /** sched finds nobody after an exit exactly when nobody is left. */
  lemma ExitStops(k: KState)
    requires ProcsSane(k.proc) && Tables(k)
    ensures |Exited(k.proc, k.procp)| == NPROC
    ensures SchedStep(k.(proc := Exited(k.proc, k.procp))).1 == NoProc ==>
              Stopped(SchedStep(k.(proc := Exited(k.proc, k.procp))).0)
  {
    hide ScanFrom, ProcsSane;
    ProcCount(k.proc);
    var proc := Exited(k.proc, k.procp);
    ScanComplete(proc, RUN, k.sched);
    ScanComplete(proc, SLEEP, k.sched);
  }

  lemma ProcCount(proc: seq<Proc>)
    requires ProcsSane(proc)
    ensures |proc| == NPROC
  {
  }

  /** Any event at all has its effect. The kernel goes on in order unless it was an exit that leaves nobody. */
  method Happen(k: Kernel, fs: FileSystem, e: Event) returns (going: bool)
    requires k.Valid() && Proper(e) && FsReady(fs)
    modifies k, k.proc, k.file, k.m.mem, k.m`coremap, k.m`free, k.m`owner, k.m`spaces
    modifies fs.inode, fs.cache.blocks, fs.cache`disk
    ensures going ==> k.Valid()
    ensures FsReady(fs) && EnvOf(k, fs) == old(EnvOf(k, fs))
    ensures Effect(EnvOf(k, fs), e, old(Now(k, fs)), Now(k, fs))
    ensures !going ==> e.ExitEvent? && Stopped(k.KView())
  {
    hide Good, Steady, Woken, ProcsSane, SlotSane, SchedStep, CacheOk, TableOk, HasRoot, HeldBufs, Stored, Forked,
         OnlyNamed, DirSane, ExecMade, Collected, OpenMade, CloseDone, ReadMade, Exited, Yielded;
    ghost var b := Now(k, fs);
    SteadyTables(k.m.kend, k.m.rodata, b.k, b.s);
    going := true;
    if e.TimerEvent? {
      var _ := Tick(k);
    } else if e.WakeEvent? {
      WakeupCall(k, e.chan);
    } else if k.proc[k.procp].stat == RUN {
      going := Call(k, fs, e);
    }
  }

  lemma RunStarts(env: Env, events: seq<Event>, x: Snap)
    requires InOrder(env, x)
    ensures IsRun(env, events, [x])
  {
  }

  lemma RunGoesOn(env: Env, events: seq<Event>, trace: seq<Snap>, x: Snap)
    requires IsRun(env, events, trace) && |trace| <= |events| && InOrder(env, trace[|trace| - 1])
    requires Proper(events[|trace| - 1]) && Effect(env, events[|trace| - 1], trace[|trace| - 1], x)
    ensures IsRun(env, events, trace + [x])
  {
    hide InOrder, Proper, Effect;
    forall i | 0 <= i < |trace|
      ensures StepAt(env, events, trace + [x], i)
    {
      assert i < |trace| - 1 ==> StepAt(env, events, trace, i);
      assert (trace + [x])[i] == trace[i];
      assert (trace + [x])[i + 1] == if i == |trace| - 1 then x else trace[i + 1];
    }
  }

  lemma NowInOrder(k: Kernel, fs: FileSystem)
    requires k.Valid() && FsReady(fs)
    ensures InOrder(EnvOf(k, fs), Now(k, fs))
  {
    hide KernelOk, CacheOk, TableOk, OnlyNamed, DirSane, HeldBufs;
  }

  /** Every run: each event has its effect on the state the one before has left, and after all of them the machine
      is in order, or an exit has left nobody to run. */
  method Run(k: Kernel, fs: FileSystem, events: seq<Event>) returns (going: bool, ghost trace: seq<Snap>)
    requires k.Valid() && FsReady(fs) && forall i :: 0 <= i < |events| ==> Proper(events[i])
    modifies k, k.proc, k.file, k.m.mem, k.m`coremap, k.m`free, k.m`owner, k.m`spaces
    modifies fs.inode, fs.cache.blocks, fs.cache`disk
    ensures EnvOf(k, fs) == old(EnvOf(k, fs)) && IsRun(EnvOf(k, fs), events, trace)
    ensures trace[0] == old(Now(k, fs)) && trace[|trace| - 1] == Now(k, fs) && Ends(EnvOf(k, fs), events, trace, going)
    ensures FsReady(fs) && (going ==> k.Valid())
  {
    hide Good, KernelOk, CacheOk, TableOk, HasRoot, HeldBufs, OnlyNamed, DirSane, Effect, Proper, IsRun;
    going := true;
    trace := [Now(k, fs)];
    NowInOrder(k, fs);
    RunStarts(EnvOf(k, fs), events, Now(k, fs));
    var i := 0;
    while i < |events| && going
      invariant 0 <= i <= |events| && FsReady(fs) && EnvOf(k, fs) == old(EnvOf(k, fs)) && (going ==> k.Valid())
      invariant |trace| == i + 1 && IsRun(EnvOf(k, fs), events, trace)
      invariant trace[0] == old(Now(k, fs)) && trace[i] == Now(k, fs)
      invariant !going ==> 0 < i && events[i - 1].ExitEvent? && Stopped(k.KView())
    {
      NowInOrder(k, fs);
      ghost var before := trace;
      going := Happen(k, fs, events[i]);
      RunGoesOn(EnvOf(k, fs), events, before, Now(k, fs));
      trace := before + [Now(k, fs)];
      i := i + 1;
    }
    if going {
      NowInOrder(k, fs);
    }
  }

  /** The machine as boot leaves it: one process, with the boot program in its memory, and nothing lost. */
  ghost predicate Booted(env: Env, x: Snap) {
    && x.k.procp == 1 && |x.k.proc| == NPROC && x.k.proc == NoProcs()[1 := FirstProc(x.k.cr3, x.k.proc[1].kstack)]
    && Shows(x.s, x.k.cr3 / PAGESIZE, KERNEND, InitCode()) && FirstPage(x.s, x.k.cr3 / PAGESIZE, InitCode())
    && Awake(x.k)
    && |x.s.free| == NP - env.kend - BOOTCOST && RetiredPages(x.s) == {}
  }

  /** The first process in plain words: it starts at the bottom of its only page with its stack at the top, and has the
      console open; all other slots but the boot code's are unused. */
  lemma FirstProcess(env: Env, x: Snap)
    requires Booted(env, x)
    ensures var p := x.k.proc[1];
            && p.stat == RUN && p.pid == 0 && p.pproc == None && p.wchan == NoChan && p.size == 32
            && p.tf.eip == 0x4000_0000 && p.tf.esp == 0x4000_1000 && p.pgdir == x.k.cr3
            && |p.ofile| == 32 && forall fd :: 0 <= fd < 32 ==> p.ofile[fd] == if fd < 2 then Some(fd) else None
    ensures x.k.proc[0].stat == ZOMB && x.k.proc[0].pproc == None
    ensures forall i :: 2 <= i < NPROC ==> x.k.proc[i].stat == UNUSED
  {
    hide Shows, FirstPage, RetiredPages;
  }

  /** Every run from power-on, on any disk with a root directory. */
  method PowerOn(contents: seq<Page>, kernelEnd: nat, rodataEnd: nat, image: seq<Sector>, events: seq<Event>)
    returns (k: Kernel, fs: FileSystem, going: bool, ghost trace: seq<Snap>)
    requires |contents| == NP && EXTPAGE < rodataEnd <= kernelEnd && kernelEnd + BOOTCOST <= NP
    requires |image| == NSECTOR && DirSane(image) && forall i :: 0 <= i < |events| ==> Proper(events[i])
    ensures EnvOf(k, fs) == Env(kernelEnd, rodataEnd, image) && IsRun(EnvOf(k, fs), events, trace)
    ensures Booted(EnvOf(k, fs), trace[0]) && trace[|trace| - 1] == Now(k, fs)
    ensures Ends(EnvOf(k, fs), events, trace, going)
    ensures going ==> k.Valid()
  {
    hide Good, KernelOk, FirstProc, Shows, Proper, CacheOk, TableOk, HasRoot, IsRun, Effect, InOrder, RetiredPages,
         InitCode, Nameable, NoProcs, Ends;
    var cache := new Cache(image);
    assert |HeldBufs(cache.blocks[..])| == 0;
    fs := new FileSystem(cache);
    k := Start(contents, kernelEnd, rodataEnd, 0, 1);
    going, trace := Run(k, fs, events);
  }
}
