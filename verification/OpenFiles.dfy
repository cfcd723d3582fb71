/** Open files over a run: while somebody has an entry of the file table open it shows the same file. */
module OpenFiles {
  import opened Memory
  import opened KernelMap
  import opened Forking
  import opened Losses
  import opened Virtual
  import opened Exec
  import opened ProcTable
  import opened KernelMem
  import opened Sched
  import opened SwitchCalls
  import opened ProcCalls
  import opened ForkCall
  import opened ExecCall
  import opened UserMode
  import opened Disk
  import opened Inodes
  import opened Naming
  import opened CallerArgs
  import opened ReadCall
  import opened Effects
  import opened Traces

  /** Entry f of the file table is open on a file with these contents. */
  ghost predicate FileShows(env: Env, x: Snap, f: nat, data: seq<byte>) {
    && |env.flat| == NSECTOR && f < |x.k.file| && x.k.file[f].inode.Some? && x.k.file[f].inode.value < |x.inode|
    && x.inode[x.k.file[f].inode.value].valid && Readable(x.inode[x.k.file[f].inode.value].d)
    && FileBytes(env.flat, x.inode[x.k.file[f].inode.value].d) == data
  }

  /** What a file table entry in use is open on: nobody opens it for something else. */
  lemma FileEntryStays(env: Env, e: Event, b: Snap, a: Snap, f: nat)
    requires Effect(env, e, b, a) && f < |b.k.file| && b.k.file[f].refcnt > 0
    ensures f < |a.k.file| && a.k.file[f].inode == b.k.file[f].inode
  {
    hide SchedStep, Woken, Exited, CopyOf, LeftBehind, Wrote, ZombiesGone, UserWritable, ExecMade, OpenMade, ReadMade,
         ForkWorks, TakeStack, PAllocWorks, AfterFailure, SameLiving, ForkCost;
    if ByProcess(e) && !Awake(b.k) {
      return;
    }
    match e {
      case TimerEvent => SchedKeepsFiles(b.k);
      case ExitEvent => SchedKeepsFiles(b.k.(proc := Exited(b.k.proc, b.k.procp)));
      case WaitEvent => SchedKeepsFiles(b.k.(proc := Asleep(b.k, ProcChan(b.k.procp))));
      case SleepEvent(chan) => SchedKeepsFiles(b.k.(proc := Asleep(b.k, chan)));
      case ExecEvent(path, argv) =>
        var r :| ExecMade(env, b, a, path, argv, r);
        if a.k != b.k {
          var file, args := ExecutedFile(env, b, a, path, argv, r);
          RanKeepsFiles(env, b, a, file, args, r);
        }
      case OpenEvent(path) =>
        var r :| OpenMade(env, b, a, path, r);
        OpenKeepsOthers(env, b, a, path, r, f);
      case ReadEvent(fd, arg, size) =>
        ReadKeepsInodes(env, b, a, fd, arg, size, f);
      case _ =>
    }
  }

  lemma SchedKeepsFiles(k: KState)
    requires Tables(k)
    ensures SchedStep(k).0.file == k.file
  {
  }

  lemma RanKeepsFiles(env: Env, b: Snap, a: Snap, f: seq<byte>, args: seq<seq<byte>>, r: int)
    requires Ran(env, b, a, f, args, r)
    ensures a.k.file == b.k.file
  {
    hide LeftBehind, Replaced, Executable, ExecCost, AfterExec;
  }

  lemma OpenKeepsOthers(env: Env, b: Snap, a: Snap, path: word, r: int, f: nat)
    requires OpenMade(env, b, a, path, r) && f < |b.k.file| && b.k.file[f].refcnt > 0
    ensures f < |a.k.file| && a.k.file[f] == b.k.file[f]
  {
    hide CanName, NameLookup, HasString, NoEntry;
  }

  lemma ReadKeepsInodes(env: Env, b: Snap, a: Snap, fd: int, arg: word, size: int, f: nat)
    requires ReadMade(env, b, a, fd, arg, size) && f < |b.k.file|
    ensures f < |a.k.file| && a.k.file[f].inode == b.k.file[f].inode
  {
    hide ReadAllowed, OnDisk, FileBytes, Readable, Wrote;
  }

  /** No event takes an inode out of the table, or puts another in its place. */
  lemma InodeStays(env: Env, e: Event, b: Snap, a: Snap, j: nat)
    requires InOrder(env, b) && Effect(env, e, b, a) && j < |b.inode|
    ensures j < |a.inode| && SameInode(b.inode[j], a.inode[j])
  {
    hide KernelOk, TableOk, OnlyNamed, DirSane, NameLookup, Executed, Opened, NoEntry, HasString, HasArgs, Runnable,
         CanName, SchedStep, Woken, Exited, Stored, Forked, Collected, CloseDone, ReadMade, SameInode;
    Unchanged(b.inode[j]);
    InodeTableSize(b.inode, env.flat);
    if ByProcess(e) && !Awake(b.k) {
      return;
    }
    match e {
      case ExecEvent(path, argv) =>
        var r :| ExecMade(env, b, a, path, argv, r);
        ExecKeepsInodes(env, b, a, path, argv, r, j);
      case OpenEvent(path) =>
        var r :| OpenMade(env, b, a, path, r);
        OpenKeepsInodes(env, b, a, path, r, j);
      case _ =>
    }
  }

  lemma Unchanged(i: Inode)
    ensures SameInode(i, i)
  {
  }

  lemma ExecLooksUp(env: Env, b: Snap, a: Snap, path: seq<byte>, args: seq<seq<byte>>, r: int)
    requires CanName(b.inode, env.flat) && path != []
    requires ExecNamed(env, b, a, path, args, r) || OpenNamed(env, b, a, path, r)
    ensures a.inode == NameLookup(b.inode, env.flat, path).0
  {
    hide CanName, NameLookup, Executed, Runnable, NoEntry, Opened;
  }

  lemma ExecKeepsInodes(env: Env, b: Snap, a: Snap, pathArg: word, argvArg: word, r: int, j: nat)
    requires TableOk(b.inode, env.flat) && ExecMade(env, b, a, pathArg, argvArg, r) && j < NINODE == |b.inode|
    ensures j < |a.inode| && SameInode(b.inode[j], a.inode[j])
  {
    hide TableOk, NameLookup, ExecNamed, HasString, HasArgs, StringAt, ArgsAt, CanName, SameInode;
    Unchanged(b.inode[j]);
    var d := b.k.cr3 / PAGESIZE;
    if a != b {
      var path, args :| StringAt(b.s, d, pathArg, path) && ArgsAt(b.s, d, ArgPtr(argvArg), args)
                        && path != [] && ExecNamed(env, b, a, path, args, r);
      ExecLooksUp(env, b, a, path, args, r);
      LookupStays(b.inode, env.flat, path, j);
    }
  }

  lemma OpenKeepsInodes(env: Env, b: Snap, a: Snap, pathArg: word, r: int, j: nat)
    requires TableOk(b.inode, env.flat) && OpenMade(env, b, a, pathArg, r) && j < NINODE == |b.inode|
    ensures j < |a.inode| && SameInode(b.inode[j], a.inode[j])
  {
    hide TableOk, NameLookup, OpenNamed, HasString, StringAt, CanName, SameInode;
    Unchanged(b.inode[j]);
    if a != b {
      var path :| StringAt(b.s, b.k.cr3 / PAGESIZE, pathArg, path) && path != [] && OpenNamed(env, b, a, path, r);
      ExecLooksUp(env, b, a, path, [], r);
      LookupStays(b.inode, env.flat, path, j);
    }
  }

  lemma OpenFileStep(env: Env, e: Event, b: Snap, a: Snap, f: nat, data: seq<byte>)
    requires InOrder(env, b) && Effect(env, e, b, a) && FileShows(env, b, f, data) && b.k.file[f].refcnt > 0
    ensures FileShows(env, a, f, data)
  {
    hide InOrder, Readable, FileBytes, Effect;
    FileEntryStays(env, e, b, a, f);
    InodeStays(env, e, b, a, b.k.file[f].inode.value);
  }

  ghost predicate Referred(trace: seq<Snap>, m: nat, f: nat)
    requires m < |trace|
  {
    f < |trace[m].k.file| && trace[m].k.file[f].refcnt > 0
  }

  /** As long as anybody has it open, a file table entry shows the same file, whoever opens, closes, forks or exits. */
  lemma {:induction false} OpenFileStays(env: Env, events: seq<Event>, trace: seq<Snap>, f: nat, data: seq<byte>,
      from: nat,
                                         to: nat)
    requires IsRun(env, events, trace) && from <= to < |trace| && FileShows(env, trace[from], f, data)
    requires forall m :: from <= m < to ==> Referred(trace, m, f)
    ensures FileShows(env, trace[to], f, data)
  {
    hide InOrder, Effect, IsRun, Proper, FileShows;
    if from < to {
      OpenFileStays(env, events, trace, f, data, from, to - 1);
      StepOf(env, events, trace, to - 1);
      assert Referred(trace, to - 1, f);
      OpenFileStep(env, events[to - 1], trace[to - 1], trace[to], f, data);
    }
  }

  /** read from an entry that shows a file delivers the file's bytes at the offset. */
  lemma ReadDelivers(env: Env, b: Snap, a: Snap, fd: int, arg: word, size: int, f: nat, data: seq<byte>)
    returns (r: int)
    requires Awake(b.k) && Effect(env, ReadEvent(fd, arg, size), b, a) && FileShows(env, b, f, data)
    requires FileOf(b.k, fd) == Some(f) && ArgPtr(arg) != 0 && 0 <= size < 0x8000_0000
    requires b.k.file[f].offset < 0x1_0000_0000
    requires forall c: nat :: arg <= c < arg + size && c < arg + |data| - b.k.file[f].offset ==>
               UserAddr(b.s, b.k.cr3 / PAGESIZE, c)
    ensures var left := |data| - b.k.file[f].offset;
            r == if left >= 0 && b.k.file[f].offset + size < 0x1_0000_0000 && b.k.file[f].offset < 124 * 512
                 then (if size <= left then size else left) else -1
    ensures r > 0 ==>
              && b.k.file[f].offset + r <= |data| && a.k == b.k.(file := Advance(b.k.file, f, r))
              && Wrote(b.k.cr3 / PAGESIZE, b.s, a.s, arg, data[b.k.file[f].offset..b.k.file[f].offset + r])
    ensures r <= 0 ==> a == b
  {
    hide FileByte, Readable, Wrote, UserAddr;
    assert ReadAllowed(env, b, fd, arg, size);
    r :| ReadEffect(env.flat, b.inode, b.k, a.k, b.s, a.s, fd, arg, size, r);
  }

  /** A read through a descriptor of the running process moves entry f on by the bytes it delivers. */
  ghost predicate ReadsOn(e: Event, b: Snap, a: Snap, f: nat, data: seq<byte>)
    requires f < |b.k.file| && f < |a.k.file|
  {
    var at, to := b.k.file[f].offset, a.k.file[f].offset;
    && e.ReadEvent? && Awake(b.k) && FileOf(b.k, e.fd) == Some(f) && at < to <= |data|
    && to - at == (if e.size <= |data| - at then e.size else |data| - at)
    && Wrote(b.k.cr3 / PAGESIZE, b.s, a.s, e.arg, data[at..to])
  }

  /** The offset of an open file moves by nothing but such reads: no byte of the file is skipped or delivered twice. */
  lemma OffsetStep(env: Env, e: Event, b: Snap, a: Snap, f: nat, data: seq<byte>)
    requires Effect(env, e, b, a) && f < |b.k.file| && FileShows(env, b, f, data) && b.k.file[f].refcnt > 0
    ensures f < |a.k.file| && (a.k.file[f].offset == b.k.file[f].offset || ReadsOn(e, b, a, f, data))
  {
    hide SchedStep, Woken, Exited, CopyOf, LeftBehind, Wrote, ZombiesGone, UserWritable, ExecMade, OpenMade, ReadMade,
         ForkWorks, TakeStack, PAllocWorks, AfterFailure, SameLiving, ForkCost, FileShows;
    FileEntryStays(env, e, b, a, f);
    if ByProcess(e) && !Awake(b.k) {
      return;
    }
    match e {
      case TimerEvent => SchedKeepsFiles(b.k);
      case ExitEvent => SchedKeepsFiles(b.k.(proc := Exited(b.k.proc, b.k.procp)));
      case WaitEvent => SchedKeepsFiles(b.k.(proc := Asleep(b.k, ProcChan(b.k.procp))));
      case SleepEvent(chan) => SchedKeepsFiles(b.k.(proc := Asleep(b.k, chan)));
      case ExecEvent(path, argv) =>
        var r :| ExecMade(env, b, a, path, argv, r);
        if a.k != b.k {
          var file, args := ExecutedFile(env, b, a, path, argv, r);
          RanKeepsFiles(env, b, a, file, args, r);
        }
      case OpenEvent(path) =>
        var r :| OpenMade(env, b, a, path, r);
        OpenKeepsOthers(env, b, a, path, r, f);
      case ReadEvent(fd, arg, size) =>
        ReadMovesOn(env, b, a, fd, arg, size, f, data);
      case _ =>
    }
  }

  lemma ReadMovesOn(env: Env, b: Snap, a: Snap, fd: int, arg: word, size: int, f: nat, data: seq<byte>)
    requires Awake(b.k) && ReadMade(env, b, a, fd, arg, size) && FileShows(env, b, f, data) && f < |a.k.file|
    ensures a.k.file[f].offset == b.k.file[f].offset || ReadsOn(ReadEvent(fd, arg, size), b, a, f, data)
  {
    hide ReadAllowed, FileByte, Readable, Wrote;
  }
}
