/** kernel/syscall/open.c and execv.c from their arguments on: the strings come from the caller's memory, the file
    from the disk. */
module PathCalls {
  import opened Memory
  import opened Paging
  import opened KernelMap
  import opened FileSpec
  import opened Elf
  import opened Strings
  import opened UserStack
  import opened Exec
  import opened ProcTable
  import opened Files
  import opened SwitchCalls
  import opened ProcCalls
  import opened ExecCall
  import opened UserMode
  import opened Disk
  import opened BlockCache
  import opened Inodes
  import opened Naming
  import opened CallerArgs
  import opened ReadCall
  import opened Effects

  /** The string that a system call was given, if there is one. */
  method PathArg(k: Kernel, arg: word) returns (path: Option<seq<byte>>)
    requires k.Valid() && Awake(k.KView()) && ArgPtr(arg) != 0
    modifies k.m.mem, k.m`coremap, k.m`free, k.m`owner, k.m`spaces
    ensures k.m.View() == old(k.m.View())
    ensures path.Some? <==> HasString(k.m.View(), k.cr3 / PAGESIZE, arg)
    ensures path.Some? ==> HasNul(path.value) && StringAt(k.m.View(), k.cr3 / PAGESIZE, arg, path.value)
  {
    hide Good, Steady, Shows;
    LoadedSpace(k.m.kend, k.m.rodata, k.KView(), k.m.View());
    path := FetchString(k.m, k.cr3, arg);
    if path.Some? {
      StringEnds(path.value);
    }
  }

  /** namei in a kernel that is in order. */
  method Lookup(fs: FileSystem, path: seq<byte>) returns (ip: Slot)
    requires FsReady(fs) && HasNul(path)
    modifies fs.inode, fs.cache.blocks, fs.cache`disk
    ensures FsReady(fs) && fs.cache.flat == old(fs.cache.flat) && path != []
    ensures CanName(old(fs.inode[..]), fs.cache.flat)
    ensures (fs.inode[..], ip) == NameLookup(old(fs.inode[..]), fs.cache.flat, path)
    ensures ip.At? ==> ip.slot < fs.inode.Length
  {
    hide CacheOk, TableOk, HasRoot, HeldBufs, OnlyNamed, Gotten, Kept, NameLookup;
    RootAlwaysThere(fs.inode[..], fs.cache.flat);
    LookupKeeps(fs.inode[..], fs.cache.flat, path);
    ip := fs.NameI(path);
  }

  method OpenPath(k: Kernel, fs: FileSystem, pathArg: word) returns (r: int)
    requires k.Valid() && Awake(k.KView()) && FsReady(fs)
    modifies k.proc, k.file, k.m.mem, k.m`coremap, k.m`free, k.m`owner, k.m`spaces, fs.inode, fs.cache.blocks
    modifies fs.cache`disk
    ensures k.Valid() && FsReady(fs) && EnvOf(k, fs) == old(EnvOf(k, fs))
    ensures OpenMade(EnvOf(k, fs), old(Now(k, fs)), Now(k, fs), pathArg, r)
  {
    hide Good, Steady, CacheOk, TableOk, HasRoot, HeldBufs, OnlyNamed, NameLookup, CanName, Opened, StringAt,
         HasString;
    ghost var b := Now(k, fs);
    TableSize(k.m.kend, k.m.rodata, b.k, b.s);
    if ArgPtr(pathArg) == 0 {
      return -1;
    }
    var path := PathArg(k, pathArg);
    if path == None {
      return -1;
    }
    var ip := Lookup(fs, path.value);
    r := Open(k, if ip == Nowhere then None else Some(ip.slot));
    assert OpenNamed(EnvOf(k, fs), b, Now(k, fs), path.value, r);
  }

  /** All of a file that is on the disk. */
  method ReadAll(fs: FileSystem, ip: nat) returns (file: seq<byte>)
    requires FsReady(fs) && ip < fs.inode.Length && Readable(fs.inode[ip].d)
    modifies fs.cache.blocks, fs.cache`disk
    ensures FsReady(fs) && fs.cache.flat == old(fs.cache.flat) && |fs.cache.flat| == NSECTOR
    ensures FileFits(file) && file == FileBytes(fs.cache.flat, fs.inode[ip].d)
  {
    hide CacheOk, TableOk, HasRoot, HeldBufs, OnlyNamed, Readable, FileByte, Kept;
    SizeBound(fs.inode[ip].d);
    var r;
    r, file := fs.ReadI(ip, 0, fs.inode[ip].d.size);
    WholeFile(fs.cache.flat, fs.inode[ip].d);
  }

  lemma WholeFile(flat: seq<Sector>, d: DInode)
    requires |flat| == NSECTOR && Readable(d)
    ensures ReadCount(d.size, 0, d.size) == d.size == |FileBytes(flat, d)|
    ensures FileBytes(flat, d)[0..d.size] == FileBytes(flat, d)
  {
  }

  lemma ExecutableHeader(f: seq<byte>)
    ensures Executable(f) ==> HasHeader(f)
  {
  }

  /** execv of the file whose inode is in slot ip. */
  method ExecFile(k: Kernel, fs: FileSystem, ip: nat, args: seq<seq<byte>>) returns (r: int)
    requires k.Valid() && Awake(k.KView()) && FsReady(fs) && ip < fs.inode.Length && AreArgs(args)
    modifies k.proc, k`cr3, k.m.mem, k.m`coremap, k.m`free, k.m`owner, k.m`spaces, fs.cache.blocks, fs.cache`disk
    ensures k.Valid() && FsReady(fs) && EnvOf(k, fs) == old(EnvOf(k, fs))
    ensures var flat, d := fs.cache.flat, fs.inode[ip].d;
            if Runnable(flat, d, args)
            then Executed(old(Now(k, fs)), Now(k, fs), k.m.rodata, FileBytes(flat, d), args, r)
            else r == -1 && Now(k, fs) == old(Now(k, fs))
  {
    hide Good, Steady, CacheOk, TableOk, HasRoot, HeldBufs, OnlyNamed, DirSane, Installed, Readable, FileByte,
         UserSegments, Executable, Fits, ExecCost, AfterExec, LeftBehind, AreArgs;
    r := -1;
    if Readable(fs.inode[ip].d) {
      var file := ReadAll(fs, ip);
      ExecutableHeader(file);
      if UserSegments(file) && (!Executable(file) || Fits(args, StackTop(file))) {
        r := Execv(k, Some(file), args);
      }
    }
  }

  method ExecPath(k: Kernel, fs: FileSystem, pathArg: word, argvArg: word) returns (r: int)
    requires k.Valid() && Awake(k.KView()) && FsReady(fs)
    modifies k.proc, k`cr3, k.m.mem, k.m`coremap, k.m`free, k.m`owner, k.m`spaces, fs.inode, fs.cache.blocks
    modifies fs.cache`disk
    ensures k.Valid() && FsReady(fs) && EnvOf(k, fs) == old(EnvOf(k, fs))
    ensures ExecMade(EnvOf(k, fs), old(Now(k, fs)), Now(k, fs), pathArg, argvArg, r)
  {
    hide Good, Steady, CacheOk, TableOk, HasRoot, HeldBufs, OnlyNamed, NameLookup, CanName, StringAt, ArgsAt,
         HasString, Executed, Runnable, DirSane;
    ghost var b, d := Now(k, fs), k.cr3 / PAGESIZE;
    if ArgPtr(pathArg) == 0 {
      return -1;
    }
    var path := PathArg(k, pathArg);
    if path == None {
      return -1;
    }
    LoadedSpace(k.m.kend, k.m.rodata, k.KView(), k.m.View());
    var args := FetchArgs(k.m, k.cr3, ArgPtr(argvArg));
    if args == None {
      return -1;
    }
    ArgsInMemory(b.s, d, ArgPtr(argvArg), args.value);
    var ip := Lookup(fs, path.value);
    r := -1;
    assert Now(k, fs) == b.(inode := fs.inode[..]);
    if ip.At? {
      r := ExecFile(k, fs, ip.slot, args.value);
    }
    assert ExecNamed(EnvOf(k, fs), b, Now(k, fs), path.value, args.value, r);
  }
}
