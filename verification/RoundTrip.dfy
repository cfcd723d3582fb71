/** The image builder against the kernel: what mkfs puts in, namei and readi get out. */
module RoundTrip {
  import opened Memory
  import opened FileSpec
  import opened Strings
  import opened Disk
  import opened BlockCache
  import opened Inodes
  import opened Naming
  import opened FreeChain
  import opened MkFs

  ghost predicate NamesDistinct(files: seq<Input>) {
    forall i, j :: 0 <= i < j < |files| ==> files[i].name != files[j].name
  }

  ghost predicate NamesOk(files: seq<Input>) {
    NamesDistinct(files) && forall i :: 0 <= i < |files| ==> NameOk(files[i].name)
  }

  /** The name that a path spells: the characters before its NUL. */
  function Spelled(path: seq<byte>): seq<byte>
    requires HasNul(path)
  {
    path[..Length(path)]
  }

  /** A padded name has no NUL before its end, and one there. */
  lemma PaddedShape(name: seq<byte>)
    requires NameOk(name)
    ensures |Padded(name)| == FNAMESIZ && Padded(name)[..|name|] == name && Padded(name)[|name|] == 0
    ensures forall n :: |name| < n <= FNAMESIZ ==> 0 in Padded(name)[..n]
    ensures forall n :: 0 <= n < |name| ==> Padded(name)[n] != 0
  {
    forall n | |name| < n <= FNAMESIZ
      ensures 0 in Padded(name)[..n]
    {
      assert Padded(name)[..n][|name|] == 0;
    }
    assert forall n :: 0 <= n < |name| ==> name[n] in name;
  }

  /** The characters before the first NUL. */
  lemma SpelledUpTo(path: seq<byte>, n: nat)
    requires HasNul(path) && n < |path| && path[n] == 0 && 0 !in path[..n]
    ensures Spelled(path) == path[..n]
  {
    forall k | 0 <= k < n
      ensures path[k] != 0
    {
      assert path[..n][k] == path[k];
    }
    assert Length(path) == n;
  }

  /** The kernel's strcmp finds a padded name exactly when the path spells it. */
  lemma SameNamePadded(path: seq<byte>, name: seq<byte>)
    requires HasNul(path) && NameOk(name)
    ensures SameName(path, Padded(name), FNAMESIZ) <==> Spelled(path) == name
  {
    hide Padded;
    var q := Padded(name);
    PaddedShape(name);
    if SameName(path, q, FNAMESIZ) {
      var n :| 0 <= n <= FNAMESIZ && n <= |path| && n <= |q| && path[..n] == q[..n] && 0 !in path[..n]
               && (n == FNAMESIZ || (n < |path| && n < |q| && path[n] == 0 && q[n] == 0));
      assert n == |name|;
      SpelledUpTo(path, n);
    }
    if Spelled(path) == name {
      assert path[..|name|] == q[..|name|];
    }
  }

  lemma ImageRoot(disk: seq<Sector>, kernel: seq<byte>, files: seq<Input>)
    requires ImageOf(disk, kernel, files)
    ensures HasRoot(disk) && RootDir(disk) == disk[DirBlock(kernel)]
  {
    hide FilesPlaced, Chained, DataAt, EntriesEmpty;
  }

  lemma FileAt(disk: seq<Sector>, kernel: seq<byte>, files: seq<Input>, i: nat)
    requires ImageOf(disk, kernel, files) && i < |files|
    ensures DirBlock(kernel) < NSECTOR && FilePlaced(disk, DirBlock(kernel), i, Start(kernel, files, i), files[i])
  {
    hide FilePlaced, Chained, DataAt, EntriesEmpty, RootShows;
  }

  /** What each directory entry holds. */
  lemma EntryAt(disk: seq<Sector>, kernel: seq<byte>, files: seq<Input>, j: nat)
    requires ImageOf(disk, kernel, files) && j < NDIRENT
    ensures DirBlock(kernel) < NSECTOR
    ensures EntryIno(disk[DirBlock(kernel)], j) == if j < |files| then INODES + 1 + j else 0
    ensures j < |files| ==> |files[j].name| <= FNAMESIZ
    ensures EntryName(disk[DirBlock(kernel)], j) == if j < |files| then Padded(files[j].name) else Padded([])
  {
    hide Chained, DataAt, RootShows, InodeOf, EntryName, EntryIno, Padded, FilePlaced, InodeShows;
    if j < |files| {
      FileAt(disk, kernel, files, j);
      PlacedEntry(disk, DirBlock(kernel), j, Start(kernel, files, j), files[j]);
    }
  }

  lemma PlacedEntry(disk: seq<Sector>, dir: nat, i: nat, start: nat, file: Input)
    requires |disk| == NSECTOR && dir < NSECTOR && i < NDIRENT && FilePlaced(disk, dir, i, start, file)
    ensures |file.name| <= FNAMESIZ && EntryIno(disk[dir], i) == INODES + 1 + i
    ensures EntryName(disk[dir], i) == Padded(file.name)
    ensures InodeShows(InodeOf(disk[INODES + 1 + i]), start, |file.data|) && DataAt(disk, start, file.data)
  {
  }

  /** The name of file i is found in entry i. */
  lemma FindFile(disk: seq<Sector>, kernel: seq<byte>, files: seq<Input>, i: nat, path: seq<byte>)
    requires ImageOf(disk, kernel, files) && NamesOk(files) && i < |files| && HasNul(path)
    requires Spelled(path) == files[i].name
    ensures HasRoot(disk) && FindEntry(RootDir(disk), path, 0) == i
  {
    hide ImageOf, SameName, EntryName, EntryIno, Padded, HasRoot, RootDir;
    SizeOfImage(disk, kernel, files);
    ImageRoot(disk, kernel, files);
    var found := FindEntry(RootDir(disk), path, 0);
    EntryAt(disk, kernel, files, i);
    SameNamePadded(path, files[i].name);
    if found < i {
      EntryAt(disk, kernel, files, found);
      SameNamePadded(path, files[found].name);
    }
  }

  /** A name that is not in the image is not found, unless it is empty and there is an unused entry. */
  lemma FindNothing(disk: seq<Sector>, kernel: seq<byte>, files: seq<Input>, path: seq<byte>)
    requires ImageOf(disk, kernel, files) && NamesOk(files) && HasNul(path)
    requires (Spelled(path) != [] || |files| == NDIRENT)
    requires forall i :: 0 <= i < |files| ==> files[i].name != Spelled(path)
    ensures HasRoot(disk) && FindEntry(RootDir(disk), path, 0) == NDIRENT
  {
    hide ImageOf, SameName, EntryName, EntryIno, Padded, HasRoot, RootDir;
    SizeOfImage(disk, kernel, files);
    ImageRoot(disk, kernel, files);
    var found := FindEntry(RootDir(disk), path, 0);
    if found < NDIRENT {
      EntryAt(disk, kernel, files, found);
      SameNamePadded(path, if found < |files| then files[found].name else []);
    }
  }

  /** The empty path matches the first unused entry. */
  lemma EmptyPath(disk: seq<Sector>, kernel: seq<byte>, files: seq<Input>, path: seq<byte>)
    requires ImageOf(disk, kernel, files) && NamesOk(files) && HasNul(path) && Spelled(path) == []
    requires |files| < NDIRENT && forall i :: 0 <= i < |files| ==> files[i].name != []
    ensures HasRoot(disk) && FindEntry(RootDir(disk), path, 0) == |files| && EntryIno(RootDir(disk), |files|) == 0
  {
    hide ImageOf, SameName, EntryName, EntryIno, Padded, HasRoot, RootDir;
    SizeOfImage(disk, kernel, files);
    ImageRoot(disk, kernel, files);
    var found := FindEntry(RootDir(disk), path, 0);
    EntryAt(disk, kernel, files, |files|);
    SameNamePadded(path, []);
    if found < |files| {
      EntryAt(disk, kernel, files, found);
      SameNamePadded(path, files[found].name);
    }
  }

  /** When an absent name is not found: always, but for the empty one in a directory that is not full. */
  lemma AbsentName(disk: seq<Sector>, kernel: seq<byte>, files: seq<Input>, path: seq<byte>)
    requires ImageOf(disk, kernel, files) && NamesOk(files) && HasNul(path)
    requires forall i :: 0 <= i < |files| ==> files[i].name != Spelled(path)
    ensures HasRoot(disk)
    ensures FindEntry(RootDir(disk), path, 0) == NDIRENT <==> Spelled(path) != [] || |files| == NDIRENT
  {
    hide ImageOf, NamesOk, EntryIno, HasRoot, RootDir;
    SizeOfImage(disk, kernel, files);
    if Spelled(path) != [] || |files| == NDIRENT {
      FindNothing(disk, kernel, files, path);
    } else {
      EmptyPath(disk, kernel, files, path);
    }
  }

  ghost predicate LeadsToConsole(inode: seq<Inode>, disk: seq<Sector>, path: seq<byte>) {
    && CanName(inode, disk) && path != []
    && var (t, ip) := NameLookup(inode, disk, path);
       ip == At(0) && |t| == NINODE && IsConsole(t[0])
  }

  /** In a running kernel the empty path then leads to the console: its inode has the number 0 too. */
  lemma EmptyPathConsole(inode: seq<Inode>, disk: seq<Sector>, kernel: seq<byte>, files: seq<Input>, path: seq<byte>)
    requires HasNul(path) && Spelled(path) == []
    requires |files| < NDIRENT && forall i :: 0 <= i < |files| ==> files[i].name != []
    requires HasRoot(disk) && TableOk(inode, disk) && OnlyNamed(inode, disk)
    requires ImageOf(disk, kernel, files) && NamesOk(files)
    ensures LeadsToConsole(inode, disk, path)
  {
    hide ImageOf, NamesOk, EntryIno, HasRoot, RootDir, TableOk, OnlyNamed, FindEntry, Gotten, Dropped, InodeOf;
    EntriesOnDisk(disk, kernel, files);
    RootAlwaysThere(inode, disk);
    InodeTableSize(inode, disk);
    RootRange(disk);
    EmptyPath(disk, kernel, files, path);
    GottenOk(inode, disk, RootIno(disk));
    assert Nameable(disk, RootIno(disk));
    GottenNamed(inode, disk, RootIno(disk));
    var (t, root) := Gotten(inode, disk, RootIno(disk));
    DroppedOk(t, disk, root.slot);
    DroppedNamed(t, disk, root.slot);
    ZeroIsConsole(Dropped(t, root.slot), disk);
    LookupKeeps(inode, disk, path);
    FirstIsConsole(NameLookup(inode, disk, path).0, disk);
  }

  lemma FirstIsConsole(inode: seq<Inode>, flat: seq<Sector>)
    requires HasRoot(flat) && OnlyNamed(inode, flat)
    ensures |inode| == NINODE && IsConsole(inode[0])
  {
  }

  /** Reading the inode of file i from end to end gives the file. */
  lemma FileReadsBack(disk: seq<Sector>, kernel: seq<byte>, files: seq<Input>, i: nat)
    requires ImageOf(disk, kernel, files) && i < |files|
    ensures |disk| == NSECTOR && INODES + 1 + i < NSECTOR && Readable(InodeOf(disk[INODES + 1 + i]))
    ensures FileBytes(disk, InodeOf(disk[INODES + 1 + i])) == files[i].data
  {
    hide InodeOf, EntryIno, EntryName, Padded, Chained, EntriesEmpty, ImageOf, FilePlaced, DataAt, DataByteAt;
    SizeOfImage(disk, kernel, files);
    FileAt(disk, kernel, files, i);
    var start, data, ip := Start(kernel, files, i), files[i].data, InodeOf(disk[INODES + 1 + i]);
    PlacedEntry(disk, DirBlock(kernel), i, start, files[i]);
    InodeReadable(ip, start, |data|);
    forall k | 0 <= k < |data|
      ensures FileByte(disk, ip, k) == data[k]
    {
      BlockOfByte(k, |data|);
      DataByte(disk, start, data, k);
    }
  }

  lemma SizeOfImage(disk: seq<Sector>, kernel: seq<byte>, files: seq<Input>)
    requires ImageOf(disk, kernel, files)
    ensures |disk| == NSECTOR && |files| <= NDIRENT && DirBlock(kernel) < NSECTOR
    ensures forall i :: 0 <= i <= |files| ==> Start(kernel, files, i) < NSECTOR
  {
    forall i | 0 <= i <= |files|
      ensures Start(kernel, files, i) < NSECTOR
    {
      StartsGrow(kernel, files, i, |files|);
    }
  }

  lemma DataByte(disk: seq<Sector>, start: nat, data: seq<byte>, k: nat)
    requires DataAt(disk, start, data) && k < |data|
    ensures start + k / SECTSIZE < |disk| && disk[start + k / SECTSIZE][k % SECTSIZE] == data[k]
  {
    assert DataByteAt(disk, start, data, k);
  }

  lemma InodeReadable(ip: DInode, start: nat, size: nat)
    requires InodeShows(ip, start, size) && start + Sectors(size) <= NSECTOR
    ensures Readable(ip)
  {
  }

  /** The directory of the image names inodes of the disk. */
  lemma EntriesOnDisk(disk: seq<Sector>, kernel: seq<byte>, files: seq<Input>)
    requires ImageOf(disk, kernel, files)
    ensures DirSane(disk)
  {
    hide ImageOf, EntryIno, EntryName, HasRoot, RootDir;
    ImageRoot(disk, kernel, files);
    SizeOfImage(disk, kernel, files);
    forall i | 0 <= i < NDIRENT
      ensures EntryIno(RootDir(disk), i) < NSECTOR
    {
      EntryAt(disk, kernel, files, i);
    }
  }

  /** A lookup that succeeds in the directory of the image ends with the inode on the disk. */
  lemma NamedFile(before: seq<Inode>, after: seq<Inode>, disk: seq<Sector>, kernel: seq<byte>, files: seq<Input>,
      i: nat, path: seq<byte>, ip: Slot)
    requires ImageOf(disk, kernel, files) && NamesOk(files) && i < |files| && HasNul(path)
    requires Spelled(path) == files[i].name
    requires TableHasRoom(before) && HasRoot(disk) && Named(before, after, disk, path, ip)
    ensures |disk| == NSECTOR && INODES + 1 + i < NSECTOR && ip.At? && ip.slot < |after|
    ensures after[ip.slot].valid && after[ip.slot].d == InodeOf(disk[INODES + 1 + i])
  {
    hide ImageOf, EntryIno, EntryName, HasRoot, RootDir, InodeOf;
    SizeOfImage(disk, kernel, files);
    ImageRoot(disk, kernel, files);
    FindFile(disk, kernel, files, i, path);
    EntryAt(disk, kernel, files, i);
  }

  /** What a path means to a running kernel on the image that mkfs made: the file of that name, byte for byte, and
      nothing if there is none, except that the empty path can mean the console. */
  lemma PathMeaning(inode: seq<Inode>, disk: seq<Sector>, kernel: seq<byte>, files: seq<Input>, path: seq<byte>)
    requires ImageOf(disk, kernel, files) && NamesOk(files) && HasNul(path) && path[0] != 0x2F
    requires HasRoot(disk) && TableOk(inode, disk) && OnlyNamed(inode, disk)
    ensures CanName(inode, disk) && |disk| == NSECTOR
    ensures var (t, ip) := NameLookup(inode, disk, path);
            && (ip == Nowhere <==>
                (forall i :: 0 <= i < |files| ==> files[i].name != Spelled(path))
                && (Spelled(path) != [] || |files| == NDIRENT))
            && forall i :: 0 <= i < |files| && files[i].name == Spelled(path) ==>
                 && ip.At? && ip.slot < |t| && t[ip.slot].valid && Readable(t[ip.slot].d)
                 && FileBytes(disk, t[ip.slot].d) == files[i].data
  {
    hide ImageOf, NamesOk, EntryIno, HasRoot, RootDir, TableOk, OnlyNamed, FindEntry, NameLookup, InodeOf, FileBytes,
         Readable, CanName;
    SizeOfImage(disk, kernel, files);
    EntriesOnDisk(disk, kernel, files);
    RootAlwaysThere(inode, disk);
    InodeTableSize(inode, disk);
    LookupKeeps(inode, disk, path);
    if forall i :: 0 <= i < |files| ==> files[i].name != Spelled(path) {
      AbsentName(disk, kernel, files, path);
    } else {
      var (t, ip) := NameLookup(inode, disk, path);
      forall i | 0 <= i < |files| && files[i].name == Spelled(path)
        ensures ip.At? && ip.slot < |t| && t[ip.slot].valid && Readable(t[ip.slot].d)
        ensures FileBytes(disk, t[ip.slot].d) == files[i].data
      {
        RoomAlways(inode, disk);
        LookupNamed(inode, disk, path);
        NamedFile(inode, t, disk, kernel, files, i, path, ip);
        FileReadsBack(disk, kernel, files, i);
      }
    }
  }

  /** In a running kernel, on the image that mkfs made: the name of file i leads to an inode, and reading all of
      it gives the file. */
  method ReadNamed(fs: FileSystem, kernel: seq<byte>, files: seq<Input>, i: nat, path: seq<byte>)
    returns (data: seq<byte>)
    requires fs.Valid() && ImageOf(fs.cache.flat, kernel, files) && NamesOk(files) && i < |files|
    requires HasNul(path) && Spelled(path) == files[i].name && path[0] as int != 0x2F
    requires TableHasRoom(fs.inode[..]) && |HeldBufs(fs.cache.blocks[..])| + 1 < NBUF
    modifies fs.inode, fs.cache.blocks, fs.cache`disk
    ensures fs.Valid() && fs.cache.flat == old(fs.cache.flat)
    ensures data == files[i].data
  {
    hide ImageOf, CacheOk, TableOk, EntryIno, Named, HasRoot, RootDir, InodeOf, NamesOk, Gotten, HeldBufs;
    ghost var flat := fs.cache.flat;
    SizeOfImage(flat, kernel, files);
    EntriesOnDisk(flat, kernel, files);
    RootRange(flat);
    RoomToGet(fs.inode[..], flat, fs.rootdir);
    ghost var before := fs.inode[..];
    LookupNamed(before, flat, path);
    var ip := fs.NameI(path);
    NamedFile(before, fs.inode[..], flat, kernel, files, i, path, ip);
    FileReadsBack(flat, kernel, files, i);
    var r;
    r, data := fs.ReadI(ip.slot, 0, fs.inode[ip.slot].d.size);
    assert FileBytes(flat, fs.inode[ip.slot].d)[0..|files[i].data|] == files[i].data;
  }

  /** From the builder to the reader: build an image, start the kernel's file system on it, look a file up and
      read it. */
  method BuildThenRead(bootblock: Sector, kernel: seq<byte>, files: seq<Input>, i: nat,
      path: seq<byte>) returns (ok: bool, data: seq<byte>)
    requires |files| <= NDIRENT && ImageFits(kernel, files) && NamesOk(files) && i < |files|
    requires HasNul(path) && Spelled(path) == files[i].name && path[0] as int != 0x2F
    ensures ok <==> forall j :: 0 <= j < |files| ==> Sectors(|files[j].data|) <= NADDR
    ensures ok ==> data == files[i].data
  {
    hide ImageOf, CacheOk, TableOk, HasRoot, RootDir, InodeOf;
    var bin;
    ok, bin := Build(bootblock, kernel, files);
    data := [];
    if ok {
      ImageRoot(bin[..], kernel, files);
      var cache := new Cache(bin[..]);
      var fs := new FileSystem(cache);
      assert !fs.inode[..][2].valid;
      data := ReadNamed(fs, kernel, files, i, path);
    }
  }

  lemma ImageChains(disk: seq<Sector>, kernel: seq<byte>, files: seq<Input>)
    requires ImageOf(disk, kernel, files)
    ensures |disk| == NSECTOR && |files| <= NDIRENT
    ensures var a, b := INODES + 1 + |files|, Start(kernel, files, |files|);
            && b < NSECTOR && GetWord(disk[SUPERBLOCK], 5) == a && GetWord(disk[SUPERBLOCK], 4) == b
            && Chained(disk, a, DATA, DATA - a) && Chained(disk, b, NSECTOR, NSECTOR - b)
  {
    hide FilesPlaced, DataAt, EntriesEmpty, RootShows, Chained, InodeOf, GetWord;
  }

  lemma WholeChain(disk: seq<Sector>, head: nat, end: nat)
    requires |disk| == NSECTOR && 0 < head < end <= NSECTOR && Chained(disk, head, end, end - head)
    ensures Walk(disk, head, 0, NSECTOR) == Range(head, end)
  {
    hide Chained, Walk;
    FirstWord(head);
    ChainEnumerates(disk, head, end, 0, NSECTOR);
  }

  /** The chains: following entry 127 from the heads in the superblock enumerates the free inodes and the free
      blocks, each number once and in order. */
  lemma FreeLists(disk: seq<Sector>, kernel: seq<byte>, files: seq<Input>)
    requires ImageOf(disk, kernel, files)
    ensures |disk| == NSECTOR
    ensures var head := GetWord(disk[SUPERBLOCK], 5); head <= DATA && Walk(disk, head, 0, NSECTOR) == Range(head, DATA)
    ensures var head := GetWord(disk[SUPERBLOCK], 4);
            head <= NSECTOR && Walk(disk, head, 0, NSECTOR) == Range(head, NSECTOR)
  {
    hide ImageOf, Chained, GetWord, Walk, Range;
    ImageChains(disk, kernel, files);
    StartsGrow(kernel, files, 0, |files|);
    WholeChain(disk, INODES + 1 + |files|, DATA);
    WholeChain(disk, Start(kernel, files, |files|), NSECTOR);
  }

  /** The chains hold no number of a file's blocks or inode. */
  lemma FreeIsUnused(disk: seq<Sector>, kernel: seq<byte>, files: seq<Input>, i: nat)
    requires ImageOf(disk, kernel, files) && i < |files| && |disk| == NSECTOR
    ensures INODES + 1 + i < GetWord(disk[SUPERBLOCK], 5)
    ensures Start(kernel, files, i) + Sectors(|files[i].data|) <= GetWord(disk[SUPERBLOCK], 4)
  {
    StartsGrow(kernel, files, i, |files|);
  }
}
