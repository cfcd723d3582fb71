/** What each event does to the kernel, as a relation between the states before and after it. */
module Effects {
  import opened Memory
  import opened Paging
  import opened KernelMap
  import opened Forking
  import opened Virtual
  import opened UserStack
  import opened Exec
  import opened ProcTable
  import opened Sched
  import opened Files
  import opened SwitchCalls
  import opened ProcCalls
  import opened ForkCall
  import opened ExecCall
  import opened UserMode
  import opened Disk
  import opened BlockCache
  import opened Inodes
  import opened Naming
  import opened CallerArgs
  import opened ReadCall

  /** One thing that can happen: a timer interrupt or another round of a sleep loop, a device waking somebody up,
      a store by the running program, or a system call of the running process. wait is WaitEvent, in which the
      process goes to sleep, and, when it runs again, CollectEvent. */
  datatype Event =
    | TimerEvent
    | WakeEvent(chan: Chan)
    | StoreEvent(va: word, b: byte)
    | ForkEvent
    | ExecEvent(path: word, argv: word)
    | ExitEvent
    | WaitEvent
    | SleepEvent(chan: Chan)
    | CollectEvent
    | OpenEvent(path: word)
    | CloseEvent(fd: int)
    | ReadEvent(fd: int, arg: word, size: int)

  /** The kernel's tables and memory at one moment. */
  datatype Snap = Snap(k: KState, s: State, inode: seq<Inode>)

  /** What no event changes: where the kernel ends, and the contents of the disk. */
  datatype Env = Env(kend: nat, rodata: nat, flat: seq<Sector>)

  ghost function Now(k: Kernel, fs: FileSystem): Snap
    reads k, k.m, k.m.mem, k.proc, k.file, fs.inode
  {
    Snap(k.KView(), k.m.View(), fs.inode[..])
  }

  ghost function EnvOf(k: Kernel, fs: FileSystem): Env
    reads fs.cache
  {
    Env(k.m.kend, k.m.rodata, fs.cache.flat)
  }

  /** The file system is in order, with two buffers to work with, and its inodes come from the root directory. */
  ghost predicate FsReady(fs: FileSystem)
    reads fs, fs.cache, fs.cache.blocks, fs.inode
  {
    && fs.Valid() && |HeldBufs(fs.cache.blocks[..])| + 1 < NBUF
    && DirSane(fs.cache.flat) && OnlyNamed(fs.inode[..], fs.cache.flat)
  }

  /** The events for which the system calls are specified. */
  ghost predicate Proper(e: Event) {
    match e
    case WakeEvent(chan) => chan != NoChan
    case SleepEvent(chan) => chan != NoChan
    case ReadEvent(_, _, size) => size < 0x8000_0000
    case _ => true
  }

  /** Events that only a process that is not asleep can cause. */
  predicate ByProcess(e: Event) {
    !e.TimerEvent? && !e.WakeEvent?
  }

  ghost predicate InOrder(env: Env, x: Snap) {
    && KernelOk(env.kend, env.rodata, x.k, x.s)
    && DirSane(env.flat) && TableOk(x.inode, env.flat) && OnlyNamed(x.inode, env.flat)
  }

  /** Nobody is left to run: the kernel panics. */
  predicate Stopped(k: KState) {
    forall i :: 0 <= i < |k.proc| ==> k.proc[i].stat != RUN && k.proc[i].stat != SLEEP
  }

  predicate Tables(k: KState) {
    |k.proc| == NPROC && k.procp < NPROC && k.sched < NPROC
  }

  // ---- the effects ---------------------------------------------------------------------------

  /** The running process goes to sleep, or becomes a zombie, and sched decides who runs. */
  ghost predicate Yielded(b: Snap, a: Snap, proc: seq<Proc>)
    requires Tables(b.k) && |proc| == NPROC
  {
    a == b.(k := SchedStep(b.k.(proc := proc)).0)
  }

  function Asleep(k: KState, chan: Chan): seq<Proc>
    requires Tables(k)
  {
    k.proc[k.procp := k.proc[k.procp].(wchan := chan, stat := SLEEP)]
  }

  /** One byte of the running process's own memory, if the tables let the user write there. */
  ghost predicate Stored(b: Snap, a: Snap, va: word, x: byte) {
    if UserWritable(b.s, b.k.cr3 / PAGESIZE, va)
    then a.k == b.k && Wrote(b.k.cr3 / PAGESIZE, b.s, a.s, va, [x])
    else a == b
  }

  /** There are a slot and pages for a child. */
  ghost predicate ForkWorks(b: Snap)
    requires Tables(b.k)
  {
    HasUnused(b.k.proc) && |b.s.free| >= 1 + ForkCost(PagesOf(b.k))
  }

  ghost predicate Forked(b: Snap, a: Snap, rodata: nat)
    requires Tables(b.k)
  {
    if ForkWorks(b)
    then (exists i :: 0 <= i < |a.k.proc| && ForkedInto(b.k, a.k, b.s, a.s, rodata, i))
         && |a.s.free| == |b.s.free| - (1 + ForkCost(PagesOf(b.k)))
    else ForkFailed(b.k, a.k, b.s, a.s)
  }

  // ---- paths ---------------------------------------------------------------------------------

  ghost predicate HasString(s: State, d: nat, a: nat) {
    exists str :: StringAt(s, d, a, str)
  }

  ghost predicate HasArgs(s: State, d: nat, argv: word) {
    exists args :: ArgsAt(s, d, argv, args)
  }

  /** The file of inode d can be read and asks for nothing that is outside the model: its segments are in user space
      and, if it is a program, the arguments fit the user pages it gets. */
  predicate Runnable(flat: seq<Sector>, d: DInode, args: seq<seq<byte>>) {
    && |flat| == NSECTOR && Readable(d) && UserSegments(FileBytes(flat, d)) && AreArgs(args)
    && (Executable(FileBytes(flat, d)) ==> Fits(args, StackTop(FileBytes(flat, d))))
  }

  /** execv of file f: the new program is in place, or nothing that was in use has changed. */
  ghost predicate Executed(b: Snap, a: Snap, rodata: nat, f: seq<byte>, args: seq<seq<byte>>, r: int) {
    if Executable(f) && |b.s.free| >= ExecCost(f)
    then r == 0 && exists sp :: Installed(b.k, a.k, b.s, a.s, rodata, f, args, sp)
    else r == -1 && a.k == b.k && LeftBehind(b.s, a.s) && |a.s.free| == AfterExec(f, |b.s.free|)
  }

  /** execv of a path. A name that is not there, or a file that cannot be run, leaves only the inode looked up. */
  ghost predicate ExecNamed(env: Env, b: Snap, a: Snap, path: seq<byte>, args: seq<seq<byte>>, r: int)
    requires CanName(b.inode, env.flat) && path != []
  {
    var (t, ip) := NameLookup(b.inode, env.flat, path);
    && a.inode == t
    && if ip.At? && ip.slot < |t| && Runnable(env.flat, t[ip.slot].d, args)
       then Executed(b.(inode := t), a, env.rodata, FileBytes(env.flat, t[ip.slot].d), args, r)
       else r == -1 && a == b.(inode := t)
  }

  /** execv: the path and the arguments are those in the caller's memory. If they are not there the kernel faults,
      and the call does not happen. */
  ghost predicate ExecMade(env: Env, b: Snap, a: Snap, pathArg: word, argvArg: word, r: int) {
    var d := b.k.cr3 / PAGESIZE;
    if ArgPtr(pathArg) == 0 || !HasString(b.s, d, pathArg) || !HasArgs(b.s, d, ArgPtr(argvArg)) then r == -1 && a == b
    else
      && CanName(b.inode, env.flat)
      && exists path, args :: StringAt(b.s, d, pathArg, path) && ArgsAt(b.s, d, ArgPtr(argvArg), args)
                              && path != [] && ExecNamed(env, b, a, path, args, r)
  }

  /** The file table entry or the descriptor that open needs is not to be had. */
  ghost predicate NoEntry(k: KState) {
    || (forall f :: 0 <= f < |k.file| ==> k.file[f].refcnt != 0)
    || (k.procp < |k.proc| && forall fd :: 0 <= fd < |k.proc[k.procp].ofile| ==> k.proc[k.procp].ofile[fd] != None)
  }

  /** open of a path. The inode keeps its new reference even if there is no entry for it. */
  ghost predicate OpenNamed(env: Env, b: Snap, a: Snap, path: seq<byte>, r: int)
    requires CanName(b.inode, env.flat) && path != []
  {
    var (t, ip) := NameLookup(b.inode, env.flat, path);
    && a.inode == t
    && if ip == Nowhere || NoEntry(b.k) then r == -1 && a == b.(inode := t)
       else a.s == b.s && r >= 0 && exists f: nat :: Opened(b.k, a.k, Some(ip.slot), r, f)
  }

  ghost predicate OpenMade(env: Env, b: Snap, a: Snap, pathArg: word, r: int) {
    var d := b.k.cr3 / PAGESIZE;
    if ArgPtr(pathArg) == 0 || !HasString(b.s, d, pathArg) then r == -1 && a == b
    else
      && CanName(b.inode, env.flat)
      && exists path :: StringAt(b.s, d, pathArg, path) && path != [] && OpenNamed(env, b, a, path, r)
  }

  ghost predicate CloseDone(b: Snap, a: Snap, fd: int)
    requires Tables(b.k)
  {
    if 2 <= fd && FileOf(b.k, fd).Some? then
      var f := FileOf(b.k, fd).value;
      && f < |b.k.file| && b.k.file[f].refcnt >= 1
      && a == b.(k := b.k.(proc := WithFd(b.k.proc, b.k.procp, fd, None), file := DropRef(b.k.file, f)))
    else a == b
  }

  /** The arguments of read are bad, so it fails, or the file can be read and there is memory for what is read. */
  ghost predicate ReadAllowed(env: Env, b: Snap, fd: int, arg: word, size: int) {
    || FileOf(b.k, fd) == None || ArgPtr(arg) == 0 || size < 0
    || (size < 0x8000_0000 && ReadReady(b.k, b.inode, b.s, FileOf(b.k, fd).value, arg, size))
  }

  ghost predicate ReadMade(env: Env, b: Snap, a: Snap, fd: int, arg: word, size: int) {
    if ReadAllowed(env, b, fd, arg, size)
    then exists r :: ReadEffect(env.flat, b.inode, b.k, a.k, b.s, a.s, fd, arg, size, r)
    else a == b
  }

  /** Event e takes the machine from b to a. A process that sleeps causes nothing. What stops the real kernel does
      not happen: closing a descriptor that is not open, and arguments or buffers that are not in user memory. */
  ghost predicate Effect(env: Env, e: Event, b: Snap, a: Snap) {
    && Tables(b.k) && (e.OpenEvent? || e.ExecEvent? || a.inode == b.inode)
    && if ByProcess(e) && !Awake(b.k) then a == b
       else
         match e
         case TimerEvent => a == b.(k := SchedStep(b.k).0)
         case WakeEvent(chan) => a == b.(k := b.k.(proc := Woken(b.k.proc, chan)))
         case StoreEvent(va, x) => Stored(b, a, va, x)
         case ForkEvent => Forked(b, a, env.rodata)
         case ExecEvent(path, argv) => exists r :: ExecMade(env, b, a, path, argv, r)
         case ExitEvent => |Exited(b.k.proc, b.k.procp)| == NPROC && Yielded(b, a, Exited(b.k.proc, b.k.procp))
         case WaitEvent => Yielded(b, a, Asleep(b.k, ProcChan(b.k.procp)))
         case SleepEvent(chan) => Yielded(b, a, Asleep(b.k, chan))
         case CollectEvent => Collected(b.k, a.k, b.s, a.s)
         case OpenEvent(path) => exists r :: OpenMade(env, b, a, path, r)
         case CloseEvent(fd) => CloseDone(b, a, fd)
         case ReadEvent(fd, arg, size) => ReadMade(env, b, a, fd, arg, size)
  }
}
