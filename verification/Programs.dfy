/** From the builder to the processes: on the image that mkfs writes, execv runs the file of the name it is given, and
    open opens it. */
module Programs {
  import opened Memory
  import opened Paging
  import opened Virtual
  import opened Strings
  import opened UserStack
  import Elf
  import opened Exec
  import opened ElfLayout
  import opened ProcTable
  import opened ProcCalls
  import opened Boot
  import opened Disk
  import opened Inodes
  import opened Naming
  import opened MkFs
  import opened RoundTrip
  import opened CallerArgs
  import opened ReadCall
  import opened Effects
  import opened Traces
  import opened OpenFiles
  import opened Outcomes
  import opened Runs

  lemma ArgUnique(s: State, d: nat, a: nat, p: seq<byte>, q: seq<byte>)
    requires ArgAt(s, d, a, p) && ArgAt(s, d, a, q)
    ensures p == q
  {
    hide UserAddr, UserByte;
    var n := |p| - 1;
    StringUnique(s, d, a, p[..n], q[..|q| - 1]);
    assert |p[..n]| == n && |q[..|q| - 1]| == |q| - 1;
    assert ShowsByte(s, d, a, p, n) && ShowsByte(s, d, a, q, n);
    assert p == p[..n] + [p[n]] && q == q[..n] + [q[n]];
  }

  /** What the arguments are is determined by the caller's memory. */
  lemma ArgsUnique(s: State, d: nat, argv: word, a: seq<seq<byte>>, b: seq<seq<byte>>)
    requires ArgsAt(s, d, argv, a) && ArgsAt(s, d, argv, b)
    ensures a == b
  {
    hide UserAddr, UserByte, ArgAt, WordThere, UserWord;
    if argv != 0 {
      VectorLonger(s, d, argv, a, b);
      VectorLonger(s, d, argv, b, a);
      forall k | 0 <= k < |a|
        ensures a[k] == b[k]
      {
        assert PointsTo(s, d, argv, k, a[k]) && PointsTo(s, d, argv, k, b[k]);
        ArgUnique(s, d, UserWord(s, d, argv + 4 * k), a[k], b[k]);
      }
    }
  }

  /** execv can run file f with these arguments: nothing in it is outside the model. */
  ghost predicate CanRun(f: seq<byte>, args: seq<seq<byte>>) {
    UserSegments(f) && (Executable(f) ==> Fits(args, StackTop(f)))
  }

  lemma ExecNamedFile(env: Env, b: Snap, a: Snap, kernel: seq<byte>, files: seq<Input>, i: nat, path: seq<byte>,
                      args: seq<seq<byte>>, r: int)
    requires HasNul(path) && path[0] != 0x2F && i < |files| && Spelled(path) == files[i].name
    requires CanName(b.inode, env.flat) && ExecNamed(env, b, a, path, args, r) && CanRun(files[i].data, args)
    requires AreArgs(args)
    requires HasRoot(env.flat) && TableOk(b.inode, env.flat) && OnlyNamed(b.inode, env.flat)
    requires ImageOf(env.flat, kernel, files) && NamesOk(files)
    ensures Ran(env, b, a, files[i].data, args, r)
  {
    hide ImageOf, NamesOk, HasRoot, TableOk, OnlyNamed, CanName, NameLookup, Executed, FileBytes, Readable,
         UserSegments, Executable, Fits, AreArgs;
    PathMeaning(b.inode, env.flat, kernel, files, path);
    var (t, ip) := NameLookup(b.inode, env.flat, path);
    assert Executed(b.(inode := t), a, env.rodata, files[i].data, args, r);
  }

  /** execv of a path in the caller's memory that spells the name of file i runs the bytes that mkfs was given for it,
      with the arguments in the caller's memory. */
  lemma ExecRunsFile(env: Env, b: Snap, a: Snap, kernel: seq<byte>, files: seq<Input>, i: nat, pathArg: word,
                     argvArg: word, path: seq<byte>, args: seq<seq<byte>>) returns (r: int)
    requires InOrder(env, b) && Awake(b.k) && Effect(env, ExecEvent(pathArg, argvArg), b, a) && ArgPtr(pathArg) != 0
    requires StringAt(b.s, b.k.cr3 / PAGESIZE, pathArg, path)
    requires ArgsAt(b.s, b.k.cr3 / PAGESIZE, ArgPtr(argvArg), args)
    requires HasNul(path) && path[0] != 0x2F && i < |files| && Spelled(path) == files[i].name
    requires CanRun(files[i].data, args)
    requires ImageOf(env.flat, kernel, files) && NamesOk(files)
    ensures Ran(env, b, a, files[i].data, args, r)
  {
    hide ImageOf, NamesOk, StringAt, ArgsAt, CanRun, ExecNamed, Ran, KernelOk, TableOk, OnlyNamed, CanName;
    var d := b.k.cr3 / PAGESIZE;
    r :| ExecMade(env, b, a, pathArg, argvArg, r);
    var p, g :|
      StringAt(b.s, d, pathArg, p) && ArgsAt(b.s, d, ArgPtr(argvArg), g) && p != [] && ExecNamed(env, b, a, p, g, r);
    StringUnique(b.s, d, pathArg, p, path);
    ArgsUnique(b.s, d, ArgPtr(argvArg), g, args);
    ArgsInMemory(b.s, d, ArgPtr(argvArg), args);
    ExecNamedFile(env, b, a, kernel, files, i, path, args, r);
  }

  /** From the files that mkfs was given to the running program: if file i is an ELF file with these headers, execv of
      its name succeeds exactly if the headers are fine and there are pages enough, and then the process runs with the
      segments of the file and its arguments in memory. */
  lemma FileBecomesProgram(env: Env, b: Snap, a: Snap, kernel: seq<byte>, files: seq<Input>, i: nat, pathArg: word,
                           argvArg: word, path: seq<byte>, args: seq<seq<byte>>, entry: word, phoff: word,
                           hs: seq<ProgHdr>) returns (r: int, top: nat)
    requires InOrder(env, b) && Awake(b.k) && Effect(env, ExecEvent(pathArg, argvArg), b, a) && ArgPtr(pathArg) != 0
    requires Tables(b.k) && InOrder(env, a)
    requires StringAt(b.s, b.k.cr3 / PAGESIZE, pathArg, path)
    requires ArgsAt(b.s, b.k.cr3 / PAGESIZE, ArgPtr(argvArg), args)
    requires HasNul(path) && path[0] != 0x2F && i < |files| && Spelled(path) == files[i].name
    requires ElfFile(files[i].data, entry, phoff, hs) && forall j :: 0 <= j < |hs| && hs[j].kind == 1 ==>
              KERNEND <= hs[j].vaddr
    requires Elf.HasHeader(files[i].data) && Fits(args, StackTop(files[i].data))
    requires ImageOf(env.flat, kernel, files) && NamesOk(files)
    ensures TopIs(hs, top)
    ensures r == 0 <==>
              (forall j :: 0 <= j < |hs| ==> HeaderFine(hs[j], |files[i].data|)) && |b.s.free| >= PagesUpTo(top)
    ensures r == 0 ==> ProgramThere(b, a, files[i].data, args, entry, hs)
  {
    hide ImageOf, NamesOk, StringAt, ArgsAt, Ran, InOrder, Effect, ElfFile, Executable, Fits, StackTop, TopIs,
         PagesUpTo,
         HeaderFine, ProgramThere;
    SegmentsInUserSpace(files[i].data, entry, phoff, hs);
    r := ExecRunsFile(env, b, a, kernel, files, i, pathArg, argvArg, path, args);
    top := AcceptedOutcome(env, b, a, files[i].data, args, r, entry, phoff, hs);
    if r == 0 {
      GoodInOrder(env, a);
      ProgramOutcome(env, b, a, files[i].data, args, r, entry, phoff, hs);
    }
  }

  /** "shell" as a C string. */
  function ShellPath(): seq<byte> {
    [0x73, 0x68, 0x65, 0x6C, 0x6C, 0x00]
  }

  const SHELL_AT: word := KERNEND + 25

  lemma ShellThere(s: State, d: nat)
    requires Shows(s, d, KERNEND, InitCode())
    ensures StringAt(s, d, SHELL_AT, ShellPath())
  {
    hide UserAddr, UserByte;
    var code := InitCode();
    forall i | 0 <= i < |ShellPath()|
      ensures ShowsByte(s, d, SHELL_AT, ShellPath(), i)
    {
      assert ShowsByte(s, d, KERNEND, code, 25 + i);
      assert code[25 + i] == ShellPath()[i];
    }
  }

  lemma ShellSpelled()
    ensures HasNul(ShellPath()) && Spelled(ShellPath()) == ShellPath()[..5]
  {
    StringEnds(ShellPath());
  }

  /** From power-on to the shell: the execv that the boot program makes runs the file named shell of the image. */
  lemma FirstProgram(env: Env, b: Snap, a: Snap, kernel: seq<byte>, files: seq<Input>, i: nat) returns (r: int)
    requires Booted(env, b) && InOrder(env, b) && Effect(env, ExecEvent(SHELL_AT, 0), b, a)
    requires i < |files| && files[i].name == ShellPath()[..5] && CanRun(files[i].data, [])
    requires ImageOf(env.flat, kernel, files) && NamesOk(files)
    ensures Ran(env, b, a, files[i].data, [], r)
  {
    hide ImageOf, NamesOk, CanRun, Ran, InOrder, Effect, Shows, InitCode, NoProcs;
    ShellThere(b.s, b.k.cr3 / PAGESIZE);
    ShellSpelled();
    r := ExecRunsFile(env, b, a, kernel, files, i, SHELL_AT, 0, ShellPath(), []);
  }

  /** open of a path that spells the name of file i opens that file, if there are an entry and a descriptor. */
  lemma OpenFindsFile(env: Env, b: Snap, a: Snap, kernel: seq<byte>, files: seq<Input>, i: nat, pathArg: word,
                      path: seq<byte>) returns (fd: int, f: nat)
    requires InOrder(env, b) && Awake(b.k) && Effect(env, OpenEvent(pathArg), b, a) && ArgPtr(pathArg) != 0
    requires StringAt(b.s, b.k.cr3 / PAGESIZE, pathArg, path)
    requires exists g :: 0 <= g < |b.k.file| && b.k.file[g].refcnt == 0
    requires exists g :: 0 <= g < |b.k.proc[b.k.procp].ofile| && b.k.proc[b.k.procp].ofile[g] == None
    requires HasNul(path) && path[0] != 0x2F && i < |files| && Spelled(path) == files[i].name
    requires ImageOf(env.flat, kernel, files) && NamesOk(files)
    ensures fd >= 0 && FileOf(a.k, fd) == Some(f) && FileShows(env, a, f, files[i].data) && a.k.file[f].offset == 0
  {
    hide ImageOf, NamesOk, StringAt, OpenNamed, KernelOk, TableOk, OnlyNamed, CanName;
    var r :| OpenMade(env, b, a, pathArg, r);
    var p :| StringAt(b.s, b.k.cr3 / PAGESIZE, pathArg, p) && p != [] && OpenNamed(env, b, a, p, r);
    StringUnique(b.s, b.k.cr3 / PAGESIZE, pathArg, p, path);
    assert !NoEntry(b.k);
    fd, f := OpenNamedFile(env, b, a, kernel, files, i, path, r);
  }

  lemma OpenNamedFile(env: Env, b: Snap, a: Snap, kernel: seq<byte>, files: seq<Input>, i: nat, path: seq<byte>, r: int)
    returns (fd: int, f: nat)
    requires HasNul(path) && path[0] != 0x2F && i < |files| && Spelled(path) == files[i].name
    requires CanName(b.inode, env.flat) && OpenNamed(env, b, a, path, r) && !NoEntry(b.k)
    requires HasRoot(env.flat) && TableOk(b.inode, env.flat) && OnlyNamed(b.inode, env.flat)
    requires ImageOf(env.flat, kernel, files) && NamesOk(files)
    ensures fd >= 0 && FileOf(a.k, fd) == Some(f) && FileShows(env, a, f, files[i].data) && a.k.file[f].offset == 0
  {
    hide ImageOf, NamesOk, HasRoot, TableOk, OnlyNamed, CanName, NameLookup, FileBytes, Readable, NoEntry;
    PathMeaning(b.inode, env.flat, kernel, files, path);
    var (t, ip) := NameLookup(b.inode, env.flat, path);
    var entry: nat :| Opened(b.k, a.k, Some(ip.slot), r, entry);
    fd, f := r, entry;
  }
}
