/** kernel/syscall/read.c: read from an open file, and move on. */
module ReadCall {
  import opened Memory
  import opened Paging
  import opened FileSpec
  import opened Virtual
  import opened UserMemory
  import opened ProcTable
  import opened Files
  import opened SwitchCalls
  import opened UserMode
  import opened Disk
  import opened BlockCache
  import opened Inodes

  /** The entry of file[] that descriptor fd of the running process is open on (argfd). */
  function FileOf(k: KState, fd: int): Option<nat> {
    if k.procp < |k.proc| && 0 <= fd < |k.proc[k.procp].ofile| then k.proc[k.procp].ofile[fd] else None
  }

  /** The inode that entry f of file[] refers to can be read; the console cannot. */
  predicate OnDisk(file: seq<File>, inode: seq<Inode>, f: nat) {
    && f < |file| && file[f].inode.Some? && file[f].inode.value < |inode|
    && Readable(inode[file[f].inode.value].d) && file[f].offset < 0x1_0000_0000
  }

  /** The inode of entry f. */
  function InodeAt(file: seq<File>, inode: seq<Inode>, f: nat): DInode
    requires OnDisk(file, inode, f)
  {
    inode[file[f].inode.value].d
  }

  function Advance(file: seq<File>, f: nat, n: nat): seq<File>
    requires f < |file|
  {
    file[f := file[f].(offset := file[f].offset + n)]
  }

  /** A read of up to `size` bytes from entry f, whose inode is ip, into the memory of address space d at dst. */
  ghost predicate ReadDone(flat: seq<Sector>, ip: DInode, file0: seq<File>, file: seq<File>, f: nat,
                           s0: State, s: State, d: nat, dst: word, size: word, r: int) {
    && |flat| == NSECTOR && Readable(ip) && f < |file0| && file0[f].offset < 0x1_0000_0000
    && r == ReadCount(ip.size, file0[f].offset, size)
    && (r <= 0 ==> file == file0 && s == s0)
    && (r > 0 ==> file0[f].offset + r <= ip.size && file == Advance(file0, f, r)
                  && Wrote(d, s0, s, dst, FileBytes(flat, ip)[file0[f].offset..file0[f].offset + r]))
  }

  /** Offsets do not concern the counts. */
  lemma SteadyOffset(kend: nat, rodata: nat, k: KState, s: State, f: nat, n: nat)
    requires Steady(kend, rodata, k, s) && f < |k.file|
    ensures Steady(kend, rodata, k.(file := Advance(k.file, f, n)), s)
  {
    hide Good, MemInv, ProcsSane;
  }

  /** argptr: a pointer argument is taken only if, as a signed number, it is above KERNEND. */
  function ArgPtr(arg: word): word {
    if KERNEND < arg < 0x8000_0000 then arg else 0
  }

  /** How many bytes a read delivers. */
  function ReadLength(ip: DInode, offset: word, size: word): nat {
    var r := ReadCount(ip.size, offset, size);
    if r > 0 then r else 0
  }

  /** The file is on the disk, and where the bytes that are read will go is mapped user memory. */
  ghost predicate ReadReady(k: KState, inode: seq<Inode>, s: State, f: nat, dst: word, size: word) {
    && OnDisk(k.file, inode, f)
    && UserRange(s, k.cr3 / PAGESIZE, dst, ReadLength(InodeAt(k.file, inode, f), k.file[f].offset, size))
  }

  /** The outcome of a read: -1 for a bad argument, else what was read is in memory and the offset has moved. */
  ghost predicate ReadEffect(flat: seq<Sector>, inode: seq<Inode>, k0: KState, k: KState, s0: State, s: State,
                             fd: int, arg: word, size: int, r: int) {
    var f := FileOf(k0, fd);
    if f == None || ArgPtr(arg) == 0 || !(0 <= size < 0x8000_0000) then r == -1 && k == k0 && s == s0
    else
      && OnDisk(k0.file, inode, f.value) && k == k0.(file := k.file)
      && ReadDone(flat, InodeAt(k0.file, inode, f.value), k0.file, k.file, f.value, s0, s, k0.cr3 / PAGESIZE, arg, size,
                  r)
  }

  /** Read up to `size` bytes at the file's offset into the caller's memory. What was read is in memory, and the next
      read goes on where this one ended. */
  method Read(k: Kernel, fs: FileSystem, fd: int, arg: word, size: int) returns (r: int)
    requires k.Valid() && Awake(k.KView()) && fs.Valid() && |HeldBufs(fs.cache.blocks[..])| < NBUF && size < 0x8000_0000
    requires FileOf(k.KView(), fd).Some? && ArgPtr(arg) != 0 && size >= 0 ==>
               ReadReady(k.KView(), fs.inode[..], k.m.View(), FileOf(k.KView(), fd).value, arg, size)
    modifies k.file, fs.cache.blocks, fs.cache`disk, k.m.mem, k.m`coremap, k.m`free, k.m`owner, k.m`spaces
    ensures k.Valid() && fs.Valid() && fs.cache.flat == old(fs.cache.flat)
    ensures HeldBufs(fs.cache.blocks[..]) == old(HeldBufs(fs.cache.blocks[..]))
    ensures ReadEffect(fs.cache.flat, fs.inode[..], old(k.KView()), k.KView(), old(k.m.View()), k.m.View(), fd, arg,
                       size, r)
    ensures FileOf(old(k.KView()), fd).Some? && ArgPtr(arg) != 0 && size >= 0 ==>
              var f := FileOf(old(k.KView()), fd).value;
              && OnDisk(old(k.file[..]), fs.inode[..], f)
              && var at := old(k.file[..])[f].offset;
                 var left := InodeAt(old(k.file[..]), fs.inode[..], f).size - at;
                 r == if left >= 0 && at + size < 0x1_0000_0000 && at < 124 * 512
                      then (if size <= left then size else left) else -1
  {
    hide Good, Steady, CacheOk, TableOk, Readable, HasRoot, Wrote, UserRange, FileBytes, HeldBufs;
    TableSize(k.m.kend, k.m.rodata, k.KView(), k.m.View());
    var dst := ArgPtr(arg);
    if fd < 0 || fd >= NOFILE || k.proc[k.procp].ofile[fd] == None || dst == 0 || size < 0 {
      return -1;
    }
    var f := k.proc[k.procp].ofile[fd].value;
    var ip := k.file[f].inode.value;
    ghost var k0, s0 := k.KView(), k.m.View();
    var data;
    r, data := fs.ReadI(ip, k.file[f].offset, size);
    if r > 0 {
      SizeBound(fs.inode[ip].d);
      LoadedSpace(k.m.kend, k.m.rodata, k0, s0);
      CopyOut(k.m, k.cr3, dst, Bytes(data), r);
      assert data[..r] == data;
      WroteSame(k.cr3 / PAGESIZE, s0, k.m.View(), dst, data);
      SteadyWritten(k.m.kend, k.m.rodata, k0, s0, k.m.View());
      SteadyOffset(k.m.kend, k.m.rodata, k0, k.m.View(), f, r);
      k.file[f] := k.file[f].(offset := k.file[f].offset + r);
    }
  }

  lemma SizeBound(d: DInode)
    requires Readable(d)
    ensures d.size <= NADDR * SECTSIZE
  {
  }

  /** Two writes, one right behind the other, are one. */
  lemma WroteBoth(d: nat, s0: State, s1: State, s2: State, va: nat, a: seq<byte>, b: seq<byte>)
    requires Wrote(d, s0, s1, va, a) && Wrote(d, s1, s2, va + |a|, b) && |a| > 0 && |b| > 0
    ensures Wrote(d, s0, s2, va, a + b)
  {
    forall c: nat | UserAddr(s0, d, c)
      ensures UserByte(s2, d, c) == if va <= c < va + |a + b| then (a + b)[c - va] else UserByte(s0, d, c)
    {
      assert UserAddr(s1, d, c);
    }
    forall p | 0 <= p < NP && !Overlaps(s0.owner[p], d, va, |a + b|)
      ensures s2.mem[p] == s0.mem[p]
    {
      assert !Overlaps(s0.owner[p], d, va, |a|) && !Overlaps(s0.owner[p], d, va + |a|, |b|);
      assert s1.mem[p] == s0.mem[p];
    }
  }

  /** A file read in two pieces to consecutive addresses is read as if in one: nothing is skipped or repeated. */
  lemma ReadsFollowOn(flat: seq<Sector>, ip: DInode, file0: seq<File>, file1: seq<File>, file2: seq<File>, f: nat,
                      s0: State, s1: State, s2: State, d: nat, dst: word, n1: word, n2: word, r1: int, r2: int)
    requires ReadDone(flat, ip, file0, file1, f, s0, s1, d, dst, n1, r1) && r1 > 0 && dst + r1 < 0x1_0000_0000
    requires ReadDone(flat, ip, file1, file2, f, s1, s2, d, dst + r1, n2, r2) && r2 > 0
    ensures file2 == Advance(file0, f, r1 + r2) && file0[f].offset + r1 + r2 <= ip.size
    ensures Wrote(d, s0, s2, dst, FileBytes(flat, ip)[file0[f].offset..file0[f].offset + r1 + r2])
  {
    hide Wrote, FileByte;
    var at, bytes := file0[f].offset, FileBytes(flat, ip);
    WroteBoth(d, s0, s1, s2, dst, bytes[at..at + r1], bytes[at + r1..at + r1 + r2]);
    assert bytes[at..at + r1] + bytes[at + r1..at + r1 + r2] == bytes[at..at + r1 + r2];
  }

  // ---- reading a file from end to end --------------------------------------------------------

  /** A sequence of reads from entry f: to dsts[i], of up to sizes[i] bytes, with result rs[i]. */
  ghost predicate ReadsDone(flat: seq<Sector>, ip: DInode, files: seq<seq<File>>, f: nat, states: seq<State>, d: nat,
                            dsts: seq<word>, sizes: seq<word>, rs: seq<int>, n: nat) {
    && |files| > n && |states| > n && |dsts| >= n && |sizes| >= n && |rs| >= n && f < |files[0]|
    && forall i :: 0 <= i < n ==> ReadAt(flat, ip, files, f, states, d, dsts, sizes, rs, i)
  }

  ghost predicate ReadAt(flat: seq<Sector>, ip: DInode, files: seq<seq<File>>, f: nat, states: seq<State>, d: nat,
                         dsts: seq<word>, sizes: seq<word>, rs: seq<int>, i: nat)
    requires i + 1 < |files| && i + 1 < |states| && i < |dsts| && i < |sizes| && i < |rs|
  {
    && 0 < sizes[i] < 0x8000_0000
    && ReadDone(flat, ip, files[i], files[i + 1], f, states[i], states[i + 1], d, dsts[i], sizes[i], rs[i])
  }

  function Total(sizes: seq<word>, n: nat): nat
    requires n <= |sizes|
  {
    if n == 0 then 0 else Total(sizes, n - 1) + sizes[n - 1]
  }

  /** Before read i the offset is the number of bytes asked for so far, or the size of the file if that is less. */
  ghost predicate Arrived(files: seq<seq<File>>, f: nat, sizes: seq<word>, fsize: nat, i: nat)
    requires i < |files| && i <= |sizes|
  {
    f < |files[i]| && files[i][f].offset == if Total(sizes, i) <= fsize then Total(sizes, i) else fsize
  }

  /** Read i has brought the bytes of the file from one offset to the next, and returned 0 exactly at the end. */
  ghost predicate Brought(flat: seq<Sector>, ip: DInode, file0: seq<File>, file: seq<File>, f: nat, s0: State, s: State,
                          d: nat, dst: word, r: int) {
    && f < |file0| && f < |file| && file0[f].offset <= file[f].offset <= ip.size
    && r == file[f].offset - file0[f].offset && (r == 0 <==> file0[f].offset == ip.size)
    && |flat| == NSECTOR && Readable(ip)
    && (r > 0 ==> Wrote(d, s0, s, dst, FileBytes(flat, ip)[file0[f].offset..file[f].offset]))
  }

  lemma OneRead(flat: seq<Sector>, ip: DInode, file0: seq<File>, file: seq<File>, f: nat, s0: State, s: State, d: nat,
                dst: word, size: word, r: int)
    requires ReadDone(flat, ip, file0, file, f, s0, s, d, dst, size, r) && 0 < size < 0x8000_0000
    requires ip.size < 124 * 512 && file0[f].offset <= ip.size
    ensures Brought(flat, ip, file0, file, f, s0, s, d, dst, r)
    ensures file[f].offset == if file0[f].offset + size <= ip.size then file0[f].offset + size else ip.size
  {
    hide Wrote, FileBytes, Readable;
  }

  /** Reads of any positive sizes from the start of a file deliver it piece by piece: read i brings the bytes behind
      what the reads before it have brought, all of them together as many as were asked for or the whole file, and once
      that is reached, and only then, a read returns 0. */
  lemma {:induction false} ReadsDeliverFile(flat: seq<Sector>, ip: DInode, files: seq<seq<File>>, f: nat,
                                            states: seq<State>, d: nat, dsts: seq<word>, sizes: seq<word>, rs: seq<int>,
                                            n: nat)
    requires ReadsDone(flat, ip, files, f, states, d, dsts, sizes, rs, n) && files[0][f].offset == 0
    requires ip.size < 124 * 512
    ensures |files| > n && |sizes| >= n && |states| > n && |dsts| >= n && |rs| >= n
    ensures forall i :: 0 <= i <= n ==> Arrived(files, f, sizes, ip.size, i)
    ensures forall i :: 0 <= i < n ==>
              Brought(flat, ip, files[i], files[i + 1], f, states[i], states[i + 1], d, dsts[i], rs[i])
  {
    hide Brought, ReadDone;
    if n > 0 {
      ReadsDeliverFile(flat, ip, files, f, states, d, dsts, sizes, rs, n - 1);
      assert ReadAt(flat, ip, files, f, states, d, dsts, sizes, rs, n - 1);
      assert Arrived(files, f, sizes, ip.size, n - 1);
      OneRead(flat, ip, files[n - 1], files[n], f, states[n - 1], states[n], d, dsts[n - 1], sizes[n - 1], rs[n - 1]);
      LastArrived(flat, ip, files[n - 1], files[n], f, states[n - 1], states[n], d, dsts[n - 1], rs[n - 1]);
    }
  }

  lemma LastArrived(flat: seq<Sector>, ip: DInode, file0: seq<File>, file: seq<File>, f: nat, s0: State, s: State,
                    d: nat,
                    dst: word, r: int)
    requires Brought(flat, ip, file0, file, f, s0, s, d, dst, r)
    ensures f < |file|
  {
  }
}
