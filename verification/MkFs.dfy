/** mkfs.c: the disk image builder. */
module MkFs {
  import opened Memory
  import opened FileSpec
  import opened Disk
  import opened FreeChain

  const INODES: nat := 2     // first inode block
  const DATA: nat := 2048    // first data block
  const ROOTBLOCKS: nat := 512 // what balloc(512) takes for the root directory: the argument counts blocks

  /** A file to put in the image: its name as it is to appear in the directory, and its contents. */
  datatype Input = Input(name: seq<byte>, data: seq<byte>)

  ghost predicate NameOk(name: seq<byte>) {
    |name| < FNAMESIZ && 0 !in name
  }

  // ---- what the image is to be ---------------------------------------------------------------

  /** The block where file i starts. */
  function Start(kernel: seq<byte>, files: seq<Input>, i: nat): nat
    requires i <= |files|
  {
    if i == 0 then DATA + Sectors(|kernel|) + ROOTBLOCKS else Start(kernel, files, i - 1) + Sectors(|files[i - 1].data|)
  }

  function DirBlock(kernel: seq<byte>): nat {
    DATA + Sectors(|kernel|)
  }

  /** All blocks asked for, those for the free list included, are on the disk. */
  ghost predicate ImageFits(kernel: seq<byte>, files: seq<Input>) {
    Start(kernel, files, |files|) + ROOTBLOCKS <= NSECTOR
  }

  /** `data` lies in consecutive blocks from `start` on. */
  ghost predicate DataAt(disk: seq<Sector>, start: nat, data: seq<byte>) {
    start + Sectors(|data|) <= |disk| && forall k :: 0 <= k < |data| ==> DataByteAt(disk, start, data, k)
  }

  ghost predicate DataByteAt(disk: seq<Sector>, start: nat, data: seq<byte>, k: nat)
    requires k < |data|
  {
    start + k / SECTSIZE < |disk| && disk[start + k / SECTSIZE][k % SECTSIZE] == data[k]
  }

  function Padded(name: seq<byte>): seq<byte>
    requires |name| <= FNAMESIZ
  {
    seq(FNAMESIZ, k requires 0 <= k < FNAMESIZ => if k < |name| then name[k] else 0)
  }

  /** What mkfs puts in every inode it makes. */
  predicate Header(ip: DInode, kind: nat, size: nat) {
    ip.kind == kind && ip.uid == 0 && ip.gid == 0 && ip.mode == 0x755 && ip.nlink == 1 && ip.size == size
  }

  /** The inode of a file of `size` bytes whose blocks start at `start`. */
  ghost predicate InodeShows(ip: DInode, start: nat, size: nat) {
    && Header(ip, T_FILE, size) && |ip.addr| == NADDR
    && Sectors(size) <= NADDR && forall j :: 0 <= j < Sectors(size) ==> ip.addr[j] == start + j
  }

  /** File number i: entry i of the directory, inode 3 + i, and its data. */
  ghost predicate FilePlaced(disk: seq<Sector>, dir: nat, i: nat, start: nat, file: Input)
    requires |disk| == NSECTOR && dir < NSECTOR && i < NDIRENT
  {
    && |file.name| <= FNAMESIZ && EntryIno(disk[dir], i) == INODES + 1 + i
    && EntryName(disk[dir], i) == Padded(file.name)
    && InodeShows(InodeOf(disk[INODES + 1 + i]), start, |file.data|) && DataAt(disk, start, file.data)
  }

  ghost predicate FilesPlaced(disk: seq<Sector>, kernel: seq<byte>, files: seq<Input>, n: nat)
    requires |disk| == NSECTOR && n <= |files| <= NDIRENT && DirBlock(kernel) < NSECTOR
  {
    forall i :: 0 <= i < n ==> FilePlaced(disk, DirBlock(kernel), i, Start(kernel, files, i), files[i])
  }

  /** Directory entries from n on are empty. */
  ghost predicate EntriesEmpty(dir: Sector, n: nat) {
    forall i :: n <= i < NDIRENT ==> EntryIno(dir, i) == 0 && EntryName(dir, i) == Padded([])
  }

  /** The inode of the root directory. */
  ghost predicate RootShows(ip: DInode, dir: nat) {
    Header(ip, T_DIR, 512) && |ip.addr| == NADDR && ip.addr[0] == dir
  }

  /** The image: superblock, kernel, root directory, files, and the two free chains. */
  ghost predicate ImageOf(disk: seq<Sector>, kernel: seq<byte>, files: seq<Input>) {
    && |disk| == NSECTOR && |files| <= NDIRENT && ImageFits(kernel, files) && DirBlock(kernel) < NSECTOR
    && GetWord(disk[SUPERBLOCK], 0) == 127 && GetWord(disk[SUPERBLOCK], 1) == 127
    && RootIno(disk) == INODES && GetWord(disk[SUPERBLOCK], 3) == DATA
    && GetWord(disk[SUPERBLOCK], 4) == Start(kernel, files, |files|)
    && GetWord(disk[SUPERBLOCK], 5) == INODES + 1 + |files|
    && DataAt(disk, DATA, kernel) && RootShows(InodeOf(disk[INODES]), DirBlock(kernel))
    && FilesPlaced(disk, kernel, files, |files|) && EntriesEmpty(disk[DirBlock(kernel)], |files|)
    && Chained(disk, INODES + 1 + |files|, DATA, DATA - (INODES + 1 + |files|))
    && Start(kernel, files, |files|) < NSECTOR
    && Chained(disk, Start(kernel, files, |files|), NSECTOR, NSECTOR - Start(kernel, files, |files|))
  }

  // ---- allocation ----------------------------------------------------------------------------

  /** Inodes below a and blocks below b are in use, the others are not: what is used is always a prefix. */
  ghost predicate Prefix(used: seq<bool>, a: nat, b: nat) {
    && |used| == NSECTOR && INODES <= a <= DATA <= b <= NSECTOR
    && (forall i :: INODES <= i < DATA ==> (used[i] <==> i < a))
    && (forall i :: DATA <= i < NSECTOR ==> (used[i] <==> i < b))
  }

  method IAlloc(used: array<bool>, ghost a: nat, ghost b: nat) returns (ino: int)
    requires Prefix(used[..], a, b)
    modifies used
    ensures a == DATA ==> ino == -1 && used[..] == old(used[..])
    ensures a < DATA ==> ino == a && !old(used[a]) && used[..] == old(used[..])[a := true] && Prefix(used[..], a + 1, b)
  {
    for i := INODES to DATA
      invariant used[..] == old(used[..]) && i <= a
    {
      if !used[i] {
        used[i] := true;
        return i;
      }
    }
    return -1;
  }

  /** A run of blocks none of which was in use. */
  method BAlloc(used: array<bool>, blocksize: nat, ghost a: nat, ghost b: nat) returns (blockno: int)
    requires Prefix(used[..], a, b) && b + blocksize <= NSECTOR // else it marks bytes behind used_block
    modifies used
    ensures b == NSECTOR ==> blockno == -1
    ensures b < NSECTOR ==> blockno == b && forall j :: b <= j < b + blocksize ==> !old(used[j])
    ensures Prefix(used[..], a, b + blocksize)
    ensures forall j :: 0 <= j < NSECTOR && !(b <= j < b + blocksize) ==> used[j] == old(used[j])
  {
    for i := DATA to NSECTOR
      invariant used[..] == old(used[..]) && i <= b
    {
      if !used[i] {
        for j := 0 to blocksize
          invariant forall k :: 0 <= k < NSECTOR ==> used[k] == (old(used[k]) || b <= k < b + j)
        {
          used[i + j] := true;
        }
        return i;
      }
    }
    return -1;
  }

  // ---- writing -------------------------------------------------------------------------------

  /** A sector after block j of a file has been read over it. */
  function Chunk(file: seq<byte>, j: nat, sector: Sector): Sector {
    seq(SECTSIZE, k requires 0 <= k < SECTSIZE =>
      if SECTSIZE * j + k < |file| then file[SECTSIZE * j + k] else sector[k])
  }

  /** fread of `blocks` blocks at block `at`: the whole file, if it is no longer than that. */
  method FRead(bin: array<Sector>, at: nat, blocks: nat, file: seq<byte>)
    requires bin.Length == NSECTOR && at + blocks <= NSECTOR && blocks == Sectors(|file|)
    modifies bin
    ensures DataAt(bin[..], at, file)
    ensures forall s :: 0 <= s < NSECTOR && !(at <= s < at + blocks) ==> bin[s] == old(bin[s])
  {
    hide Chunk, DataByteAt;
    for j := 0 to blocks
      invariant forall s :: 0 <= s < NSECTOR ==>
                  bin[s] == if at <= s < at + j then Chunk(file, s - at, old(bin[s])) else old(bin[s])
    {
      bin[at + j] := Chunk(file, j, bin[at + j]);
    }
    forall k | 0 <= k < |file|
      ensures DataByteAt(bin[..], at, file, k)
    {
      BlockOfByte(k, |file|);
      assert bin[..][at + k / SECTSIZE] == Chunk(file, k / SECTSIZE, old(bin[at + k / SECTSIZE]));
      ByteInPlace(bin[..], at, file, k, old(bin[at + k / SECTSIZE]));
    }
  }

  lemma BlockOfByte(k: nat, size: nat)
    requires k < size
    ensures k / SECTSIZE < Sectors(size)
  {
  }

  lemma ByteInPlace(disk: seq<Sector>, at: nat, file: seq<byte>, k: nat, sector: Sector)
    requires k < |file| && at + k / SECTSIZE < |disk| && disk[at + k / SECTSIZE] == Chunk(file, k / SECTSIZE, sector)
    ensures DataByteAt(disk, at, file, k)
  {
    assert SECTSIZE * (k / SECTSIZE) + k % SECTSIZE == k;
  }

  /** strncpy of a name into directory entry i. */
  function PutName(dir: Sector, i: nat, name: seq<byte>): Sector
    requires i < NDIRENT && |name| <= FNAMESIZ
  {
    dir[..DIRENT * i + 4] + Padded(name) + dir[DIRENT * (i + 1)..]
  }

  lemma PutNameAt(dir: Sector, i: nat, name: seq<byte>, p: nat)
    requires i < NDIRENT && |name| <= FNAMESIZ && p < SECTSIZE
    ensures PutName(dir, i, name)[p] == if 32 * i + 4 <= p < 32 * i + 32 then Padded(name)[p - (32 * i + 4)] else dir[p]
  {
  }

  /** Filling in entry i sets its number and leaves the other numbers alone. */
  lemma EntryNumbered(dir: Sector, i: nat, ino: word, name: seq<byte>, j: nat)
    requires i < NDIRENT && j < NDIRENT && |name| <= FNAMESIZ
    ensures EntryIno(PutName(PutWord(dir, 8 * i, ino), i, name), j) == if j == i then ino else EntryIno(dir, j)
  {
    hide PutName, PutWord;
    var put := PutWord(dir, 8 * i, ino);
    PutWordAt(dir, 8 * i, ino, 8 * j);
    PutNameAt(put, i, name, 32 * j);
    PutNameAt(put, i, name, 32 * j + 1);
    PutNameAt(put, i, name, 32 * j + 2);
    PutNameAt(put, i, name, 32 * j + 3);
  }

  /** It sets its name and leaves the other names alone. */
  lemma EntryFilled(dir: Sector, i: nat, ino: word, name: seq<byte>, j: nat)
    requires i < NDIRENT && j < NDIRENT && |name| <= FNAMESIZ
    ensures var dir' := PutName(PutWord(dir, 8 * i, ino), i, name);
            && EntryIno(dir', j) == (if j == i then ino else EntryIno(dir, j))
            && EntryName(dir', j) == if j == i then Padded(name) else EntryName(dir, j)
  {
    hide PutName, PutWord, EntryIno;
    EntryNumbered(dir, i, ino, name, j);
    var dir' := PutName(PutWord(dir, 8 * i, ino), i, name);
    var want := if j == i then Padded(name) else EntryName(dir, j);
    NameLengthIs(dir', j);
    NameLengthIs(dir, j);
    forall k | 0 <= k < FNAMESIZ
      ensures EntryName(dir', j)[k] == want[k]
    {
      PutNameAt(PutWord(dir, 8 * i, ino), i, name, 32 * j + 4 + k);
      NameByteWord(j, k, i);
      PutWordByte(dir, 8 * i, ino, 32 * j + 4 + k);
    }
  }

  lemma NameLengthIs(dir: Sector, j: nat)
    requires j < NDIRENT
    ensures |EntryName(dir, j)| == FNAMESIZ && forall k :: 0 <= k < FNAMESIZ ==>
              EntryName(dir, j)[k] == dir[32 * j + 4 + k]
  {
  }

  lemma NameByteWord(j: nat, k: nat, i: nat)
    requires k < FNAMESIZ
    ensures (DIRENT * j + 4 + k) / 4 != 8 * i
  {
    assert DIRENT * j + 4 + k == 4 * (8 * j + 1) + k;
    assert (DIRENT * j + 4 + k) / 4 == 8 * j + 1 + k / 4;
  }

  /** The fields of an inode in the order in which they are set. */
  function NewInode(s: Sector, kind: nat, size: word): Sector
    requires kind < 0x1_0000
  {
    var s1 := PutHalf(PutHalf(PutHalf(PutHalf(s, 0, kind), 2, 0), 4, 0), 6, 0x755);
    PutWord(PutWord(s1, 2, 1), 3, size)
  }

  lemma NewInodeShows(s: Sector, kind: nat, size: word)
    requires kind < 0x1_0000
    ensures Header(InodeOf(NewInode(s, kind, size)), kind, size)
  {
    var s1 := PutHalf(PutHalf(PutHalf(PutHalf(s, 0, kind), 2, 0), 4, 0), 6, 0x755);
    var s2 := PutWord(s1, 2, 1);
    PutWordAt(s1, 2, 1, 2);
    PutWordAt(s2, 3, size, 2);
    PutWordAt(s2, 3, size, 3);
    assert forall i :: 0 <= i < 8 ==> PutWord(s2, 3, size)[i] == s1[i];
  }

  /** Setting addresses does not disturb the other fields. */
  lemma AddrKept(s: Sector, j: nat, w: word)
    requires j < NADDR
    ensures var ip, ip' := InodeOf(s), InodeOf(PutWord(s, 4 + j, w)); ip' == ip.(addr := ip.addr[j := w])
  {
    var t := PutWord(s, 4 + j, w);
    assert forall i :: 0 <= i < 8 ==> t[i] == s[i];
    PutWordAt(s, 4 + j, w, 2);
    PutWordAt(s, 4 + j, w, 3);
    forall k | 0 <= k < NADDR
      ensures InodeOf(t).addr[k] == InodeOf(s).addr[j := w][k]
    {
      PutWordAt(s, 4 + j, w, 4 + k);
    }
  }

  // ---- one file ------------------------------------------------------------------------------

  /** Only the inode, entry i of the directory and the data blocks of the file have been written. */
  ghost predicate OnlyFile(disk: seq<Sector>, disk': seq<Sector>, dir: nat, i: nat, start: nat, blocks: nat)
    requires |disk| == |disk'| == NSECTOR && dir < NSECTOR
  {
    && (forall s :: 0 <= s < NSECTOR && s != dir && s != INODES + 1 + i && !(start <= s < start + blocks) ==>
        disk'[s] == disk[s])
    && (forall j :: 0 <= j < NDIRENT && j != i ==>
          EntryIno(disk'[dir], j) == EntryIno(disk[dir], j) && EntryName(disk'[dir], j) == EntryName(disk[dir], j))
  }

  /** The inode of the file being added, with the first j addresses set. */
  ghost predicate InodeUpTo(ip: DInode, start: nat, size: nat, j: nat) {
    && Header(ip, T_FILE, size) && |ip.addr| == NADDR
    && j <= NADDR && forall k :: 0 <= k < j ==> ip.addr[k] == start + k
  }

  /** Fill in the inode of a file. */
  method WriteInode(bin: array<Sector>, ino: nat, size: word, blockno: nat, blocks: nat)
    requires bin.Length == NSECTOR && ino < NSECTOR && blocks == Sectors(size) <= NADDR && blockno + blocks <= NSECTOR
    modifies bin
    ensures InodeShows(InodeOf(bin[ino]), blockno, size)
    ensures forall s :: 0 <= s < NSECTOR && s != ino ==> bin[s] == old(bin[s])
  {
    hide InodeOf, PutWord, PutHalf;
    NewInodeShows(bin[ino], T_FILE, size);
    bin[ino] := NewInode(bin[ino], T_FILE, size);
    InodeSize(bin[ino]);
    for j := 0 to blocks
      invariant InodeUpTo(InodeOf(bin[ino]), blockno, size, j)
      invariant forall s :: 0 <= s < NSECTOR && s != ino ==> bin[s] == old(bin[s])
    {
      AddrKept(bin[ino], j, blockno + j);
      bin[ino] := PutWord(bin[ino], 4 + j, blockno + j);
    }
  }

  lemma InodeSize(s: Sector)
    ensures |InodeOf(s).addr| == NADDR
  {
  }

  /** Fill in a directory entry. */
  method WriteEntry(bin: array<Sector>, dir: nat, i: nat, ino: word, name: seq<byte>)
    requires bin.Length == NSECTOR && dir < NSECTOR && i < NDIRENT && |name| <= FNAMESIZ
    modifies bin
    ensures EntryIno(bin[dir], i) == ino && EntryName(bin[dir], i) == Padded(name)
    ensures forall j :: 0 <= j < NDIRENT && j != i ==>
              EntryIno(bin[dir], j) == EntryIno(old(bin[dir]), j)
              && EntryName(bin[dir], j) == EntryName(old(bin[dir]), j)
    ensures forall s :: 0 <= s < NSECTOR && s != dir ==> bin[s] == old(bin[s])
  {
    hide EntryIno, EntryName, PutWord, PutName, Padded;
    forall j | 0 <= j < NDIRENT
      ensures EntryIno(PutName(PutWord(bin[dir], 8 * i, ino), i, name), j)
              == if j == i then ino else EntryIno(bin[dir], j)
      ensures EntryName(PutName(PutWord(bin[dir], 8 * i, ino), i, name), j) == if j == i then Padded(name)
          else EntryName(bin[dir], j)
    {
      EntryFilled(bin[dir], i, ino, name, j);
    }
    bin[dir] := PutWord(bin[dir], 8 * i, ino);
    bin[dir] := PutName(bin[dir], i, name);
  }

  /** Add file number i; false if it has more blocks than an inode can address. */
  method AddFile(used: array<bool>, bin: array<Sector>, dir: nat, i: nat, file: Input, ghost start: nat)
    returns (ok: bool)
    requires bin.Length == NSECTOR && i < NDIRENT && Prefix(used[..], INODES + 1 + i, start) && DATA <= dir < start
    requires |file.name| <= FNAMESIZ && start + Sectors(|file.data|) < NSECTOR
    modifies used, bin
    ensures ok <==> Sectors(|file.data|) <= NADDR
    ensures ok ==>
              && Prefix(used[..], INODES + 1 + i + 1, start + Sectors(|file.data|))
              && FilePlaced(bin[..], dir, i, start, file)
              && OnlyFile(old(bin[..]), bin[..], dir, i, start, Sectors(|file.data|))
  {
    hide EntryIno, EntryName, InodeOf, InodeShows, DataByteAt, Padded;
    ghost var disk := bin[..];
    var ino := IAlloc(used, INODES + 1 + i, start);
    WriteEntry(bin, dir, i, ino, file.name);
    ghost var entry := bin[dir];
    var blocksize := Sectors(|file.data|);
    if blocksize > NADDR {
      return false;
    }
    var blockno := BAlloc(used, blocksize, INODES + 1 + i + 1, start);
    WriteInode(bin, ino, |file.data|, blockno, blocksize);
    ghost var inode := bin[ino];
    FRead(bin, blockno, blocksize, file.data);
    assert bin[..][dir] == entry && bin[..][ino] == inode;
    ok := true;
  }

  // ---- the image so far ----------------------------------------------------------------------

  /** Root directory, kernel and the first n files are in place, and what has not been allocated is clear. */
  ghost predicate Begun(disk: seq<Sector>, kernel: seq<byte>, files: seq<Input>, n: nat) {
    && |disk| == NSECTOR && n <= |files| <= NDIRENT && Start(kernel, files, n) <= NSECTOR && DirBlock(kernel) < NSECTOR
    && RootIno(disk) == INODES && GetWord(disk[SUPERBLOCK], 3) == DATA
    && DataAt(disk, DATA, kernel) && RootShows(InodeOf(disk[INODES]), DirBlock(kernel))
    && FilesPlaced(disk, kernel, files, n) && EntriesEmpty(disk[DirBlock(kernel)], n)
    && (forall s :: INODES + 1 + n <= s < DATA || Start(kernel, files, n) <= s < NSECTOR ==> disk[s] == ZeroSector())
  }

  lemma {:induction false} StartsGrow(kernel: seq<byte>, files: seq<Input>, i: nat, j: nat)
    requires i <= j <= |files|
    ensures DirBlock(kernel) + ROOTBLOCKS <= Start(kernel, files, i) <= Start(kernel, files, j)
    ensures i < j ==> Start(kernel, files, i) + Sectors(|files[i].data|) <= Start(kernel, files, j)
  {
    if j > 0 {
      if i < j {
        StartsGrow(kernel, files, i, j - 1);
      } else {
        StartsGrow(kernel, files, i - 1, j - 1);
      }
    }
  }

  /** The blocks of different files are different. */
  lemma RunsDisjoint(kernel: seq<byte>, files: seq<Input>, i: nat, j: nat, b: nat)
    requires i < |files| && j < |files| && i != j
    requires Start(kernel, files, i) <= b < Start(kernel, files, i) + Sectors(|files[i].data|)
    ensures !(Start(kernel, files, j) <= b < Start(kernel, files, j) + Sectors(|files[j].data|))
    ensures b >= DirBlock(kernel) + ROOTBLOCKS
  {
    if i < j {
      StartsGrow(kernel, files, i, j);
    } else {
      StartsGrow(kernel, files, j, i);
    }
  }

  lemma DataKept(disk: seq<Sector>, disk': seq<Sector>, start: nat, data: seq<byte>)
    requires DataAt(disk, start, data) && |disk'| == |disk|
    requires forall s :: start <= s < start + Sectors(|data|) ==> s < |disk| && disk'[s] == disk[s]
    ensures DataAt(disk', start, data)
  {
    forall k | 0 <= k < |data|
      ensures DataByteAt(disk', start, data, k)
    {
      assert DataByteAt(disk, start, data, k);
      BlockOfByte(k, |data|);
    }
  }

  lemma FileKept(disk: seq<Sector>, disk': seq<Sector>, dir: nat, i: nat, start: nat, file: Input, n: nat,
      next: nat, blocks: nat)
    requires |disk| == |disk'| == NSECTOR && DATA <= dir < start && dir < NSECTOR && i < n < NDIRENT
    requires start + Sectors(|file.data|) <= next
    requires FilePlaced(disk, dir, i, start, file) && OnlyFile(disk, disk', dir, n, next, blocks)
    ensures FilePlaced(disk', dir, i, start, file)
  {
    hide EntryIno, EntryName, InodeOf, InodeShows, Padded;
    DataKept(disk, disk', start, file.data);
  }

  lemma BegunNext(disk: seq<Sector>, disk': seq<Sector>, kernel: seq<byte>, files: seq<Input>, n: nat)
    requires Begun(disk, kernel, files, n) && n < |files| && |disk'| == NSECTOR
    requires Start(kernel, files, n + 1) <= NSECTOR
    requires FilePlaced(disk', DirBlock(kernel), n, Start(kernel, files, n), files[n])
    requires OnlyFile(disk, disk', DirBlock(kernel), n, Start(kernel, files, n), Sectors(|files[n].data|))
    ensures Begun(disk', kernel, files, n + 1)
  {
    hide EntryIno, EntryName, InodeOf, FilePlaced, DataAt, Padded, RootShows, GetWord, ZeroSector;
    var dir, next := DirBlock(kernel), Start(kernel, files, n);
    StartsGrow(kernel, files, 0, n);
    forall i | 0 <= i < n + 1
      ensures FilePlaced(disk', dir, i, Start(kernel, files, i), files[i])
    {
      if i < n {
        StartsGrow(kernel, files, i, n);
        FileKept(disk, disk', dir, i, Start(kernel, files, i), files[i], n, next, Sectors(|files[n].data|));
      }
    }
    DataKept(disk, disk', DATA, kernel);
  }

  // ---- the whole image -----------------------------------------------------------------------

  lemma EmptyEntries(n: nat)
    ensures EntriesEmpty(ZeroSector(), n)
  {
    forall i | n <= i < NDIRENT
      ensures EntryIno(ZeroSector(), i) == 0 && EntryName(ZeroSector(), i) == Padded([])
    {
      ZeroWord(8 * i);
    }
  }

  /** The inode of the root directory, with the run of blocks it is given. */
  method MakeRoot(used: array<bool>, bin: array<Sector>, ghost b: nat) returns (rootdir: nat, block: nat)
    requires bin.Length == NSECTOR && Prefix(used[..], INODES, b) && b + ROOTBLOCKS <= NSECTOR
    modifies used, bin
    ensures rootdir == INODES && block == b && Prefix(used[..], INODES + 1, b + ROOTBLOCKS)
    ensures RootShows(InodeOf(bin[rootdir]), block)
    ensures forall s :: 0 <= s < NSECTOR && s != rootdir ==> bin[s] == old(bin[s])
  {
    hide InodeOf, PutWord, PutHalf;
    rootdir := IAlloc(used, INODES, b);
    NewInodeShows(bin[rootdir], T_DIR, 512);
    bin[rootdir] := NewInode(bin[rootdir], T_DIR, 512);
    InodeSize(bin[rootdir]);
    block := BAlloc(used, ROOTBLOCKS, INODES + 1, b);
    AddrKept(bin[rootdir], 0, block);
    bin[rootdir] := PutWord(bin[rootdir], 4, block);
  }

  /** Boot block, kernel and an empty root directory. */
  method Begin(used: array<bool>, bin: array<Sector>, bootblock: Sector, kernel: seq<byte>,
      ghost files: seq<Input>) returns (dir: nat)
    requires bin.Length == NSECTOR && used.Length == NSECTOR && |files| <= NDIRENT && ImageFits(kernel, files)
    requires (forall s :: 0 <= s < NSECTOR ==> bin[s] == ZeroSector()) && forall s :: 0 <= s < NSECTOR ==> !used[s]
    modifies used, bin
    ensures Begun(bin[..], kernel, files, 0) && Prefix(used[..], INODES + 1, Start(kernel, files, 0))
    ensures dir == DirBlock(kernel) && bin[0] == bootblock
  {
    hide EntryIno, EntryName, InodeOf, Padded, PutWord, PutHalf, ZeroSector, DataAt, EntriesEmpty, RootShows;
    StartsGrow(kernel, files, 0, |files|);
    EmptyEntries(0);
    bin[0] := bootblock;
    used[0] := true;
    var blocksize := Sectors(|kernel|);
    var at := BAlloc(used, blocksize, INODES, DATA);
    PutWordAt(bin[SUPERBLOCK], 3, at, 3);
    bin[SUPERBLOCK] := PutWord(bin[SUPERBLOCK], 3, at);
    FRead(bin, at, blocksize, kernel);
    ghost var disk := bin[..];
    var rootdir, block := MakeRoot(used, bin, DATA + blocksize);
    PutWordAt(bin[SUPERBLOCK], 2, rootdir, 2);
    PutWordAt(bin[SUPERBLOCK], 2, rootdir, 3);
    bin[SUPERBLOCK] := PutWord(bin[SUPERBLOCK], 2, rootdir);
    dir := block;
    DataKept(disk, bin[..], DATA, kernel);
  }

  /** The free inode and block lists and the rest of the superblock. */
  method Finish(used: array<bool>, bin: array<Sector>, kernel: seq<byte>, files: seq<Input>)
    requires bin.Length == NSECTOR && Begun(bin[..], kernel, files, |files|) && ImageFits(kernel, files)
    requires Prefix(used[..], INODES + 1 + |files|, Start(kernel, files, |files|))
    modifies used, bin
    ensures ImageOf(bin[..], kernel, files) && bin[0] == old(bin[0])
  {
    hide EntryIno, EntryName, InodeOf, Padded, PutWord, PutHalf, ZeroSector, DataAt, EntriesEmpty, RootShows,
         FilesPlaced, Chained, GetWord;
    ghost var disk0 := bin[..];
    var freeino := IAlloc(used, INODES + 1 + |files|, Start(kernel, files, |files|));
    SuperWord(bin[SUPERBLOCK], 5, freeino);
    bin[SUPERBLOCK] := PutWord(bin[SUPERBLOCK], 5, freeino);
    WriteChain(bin, freeino, DATA);
    ghost var disk1 := bin[..];
    var freeblock := BAlloc(used, ROOTBLOCKS, INODES + 1 + |files| + 1, Start(kernel, files, |files|));
    SuperWord(bin[SUPERBLOCK], 4, freeblock);
    bin[SUPERBLOCK] := PutWord(bin[SUPERBLOCK], 4, freeblock);
    WriteChain(bin, freeblock, NSECTOR);
    ghost var disk2 := bin[..];
    SuperWord(bin[SUPERBLOCK], 1, 127);
    bin[SUPERBLOCK] := PutWord(bin[SUPERBLOCK], 1, 127);
    SuperWord(bin[SUPERBLOCK], 0, 127);
    bin[SUPERBLOCK] := PutWord(bin[SUPERBLOCK], 0, 127);
    ChainKept(disk2, bin[..], freeblock, NSECTOR, NSECTOR - freeblock);
    Finished(disk0, disk1, bin[..], kernel, files);
  }

  /** Setting a word of the superblock leaves the others alone. */
  lemma SuperWord(s: Sector, k: nat, w: word)
    requires k < NENTRY
    ensures GetWord(PutWord(s, k, w), k) == w
    ensures forall j :: 0 <= j < NENTRY && j != k ==> GetWord(PutWord(s, k, w), j) == GetWord(s, j)
  {
    forall j | 0 <= j < NENTRY
      ensures GetWord(PutWord(s, k, w), j) == if j == k then w else GetWord(s, j)
    {
      PutWordAt(s, k, w, j);
    }
  }

  lemma ChainKept(disk: seq<Sector>, disk': seq<Sector>, head: nat, end: nat, n: nat)
    requires |disk| == |disk'| == NSECTOR && head < end <= NSECTOR && Chained(disk, head, end, n)
    requires forall s :: head <= s < end ==> disk'[s] == disk[s]
    ensures Chained(disk', head, end, n)
  {
    forall idx {:trigger BlockOf(head, idx)} | 0 <= idx <= end - head && BlockOf(head, idx) < end
      ensures GetWord(disk'[BlockOf(head, idx)], idx % NENTRY) == if idx < n then head + idx else 0
    {
      BlockRange(head, end, idx);
    }
  }

  /** The chains and the superblock are written where no file, directory or inode lies. */
  lemma Finished(disk0: seq<Sector>, disk1: seq<Sector>, disk: seq<Sector>, kernel: seq<byte>, files: seq<Input>)
    requires Begun(disk0, kernel, files, |files|) && ImageFits(kernel, files) && |disk1| == |disk| == NSECTOR
    requires var a, b := INODES + 1 + |files|, Start(kernel, files, |files|);
             && b < NSECTOR && Chained(disk1, a, DATA, DATA - a) && Chained(disk, b, NSECTOR, NSECTOR - b)
             && (forall s :: a <= s < DATA ==> disk[s] == disk1[s])
             && (forall s :: INODES <= s < a || DATA <= s < b ==> disk[s] == disk0[s])
             && GetWord(disk[SUPERBLOCK], 2) == GetWord(disk0[SUPERBLOCK], 2)
                 && GetWord(disk[SUPERBLOCK], 3) == GetWord(disk0[SUPERBLOCK], 3)
             && GetWord(disk[SUPERBLOCK], 4) == b && GetWord(disk[SUPERBLOCK], 5) == a
             && GetWord(disk[SUPERBLOCK], 0) == 127 && GetWord(disk[SUPERBLOCK], 1) == 127
    ensures ImageOf(disk, kernel, files)
  {
    hide EntryIno, EntryName, InodeOf, Padded, DataAt, EntriesEmpty, RootShows, Chained, GetWord;
    var a, b := INODES + 1 + |files|, Start(kernel, files, |files|);
    ChainKept(disk1, disk, a, DATA, DATA - a);
    StartsGrow(kernel, files, 0, |files|);
    DataKept(disk0, disk, DATA, kernel);
    forall i | 0 <= i < |files|
      ensures FilePlaced(disk, DirBlock(kernel), i, Start(kernel, files, i), files[i])
    {
      StartsGrow(kernel, files, i, |files|);
      DataKept(disk0, disk, Start(kernel, files, i), files[i].data);
    }
  }

  /** The image builder. It gives up when a file is too long for one inode, and else writes the image. */
  method Build(bootblock: Sector, kernel: seq<byte>, files: seq<Input>) returns (ok: bool, bin: array<Sector>)
    requires |files| <= NDIRENT && ImageFits(kernel, files) && forall i :: 0 <= i < |files| ==>
              |files[i].name| <= FNAMESIZ
    ensures fresh(bin) && bin.Length == NSECTOR
    ensures ok <==> forall i :: 0 <= i < |files| ==> Sectors(|files[i].data|) <= NADDR
    ensures ok ==> ImageOf(bin[..], kernel, files) && bin[0] == bootblock
  {
    hide Begun, ImageOf, Prefix, FilePlaced, OnlyFile, ZeroSector;
    bin := new Sector[NSECTOR](_ => ZeroSector());
    var used := new bool[NSECTOR](_ => false);
    var dir := Begin(used, bin, bootblock, kernel, files);
    for i := 0 to |files|
      invariant Begun(bin[..], kernel, files, i) && Prefix(used[..], INODES + 1 + i, Start(kernel, files, i))
      invariant bin[0] == bootblock && forall j :: 0 <= j < i ==> Sectors(|files[j].data|) <= NADDR
    {
      StartsGrow(kernel, files, 0, i);
      StartsGrow(kernel, files, i + 1, |files|);
      ghost var disk := bin[..];
      ok := AddFile(used, bin, dir, i, files[i], Start(kernel, files, i));
      if !ok {
        return;
      }
      BegunNext(disk, bin[..], kernel, files, i);
      BootKept(disk, bin[..], dir, i, Start(kernel, files, i), Sectors(|files[i].data|));
    }
    Finish(used, bin, kernel, files);
    ok := true;
  }

  lemma BootKept(disk: seq<Sector>, disk': seq<Sector>, dir: nat, i: nat, start: nat, blocks: nat)
    requires |disk| == |disk'| == NSECTOR && dir < NSECTOR && OnlyFile(disk, disk', dir, i, start, blocks)
    requires 0 < dir < start
    ensures disk'[0] == disk[0]
  {
  }
}
