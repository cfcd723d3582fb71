/** The image byte by byte, as struct sysfs, struct directory and struct dinode lie on the disk. */
module DiskLayout {
  import opened Memory
  import opened UserStack
  import opened Disk
  import opened FreeChain
  import opened MkFs
  import opened RoundTrip

  lemma WordOnDisk(s: Sector, k: nat)
    requires k < NENTRY
    ensures s[4 * k..4 * k + 4] == WordBytes([GetWord(s, k)])
  {
    hide WordBytes, ByteOfWord, WordOfBytes;
    var w := GetWord(s, k);
    WordBytesLength([w]);
    forall j | 0 <= j < 4
      ensures s[4 * k..4 * k + 4][j] == WordBytes([w])[j]
    {
      WordBytesAt([w], 0, j);
      WordByteRoundTrip(s[4 * k..4 * k + 4], j);
    }
  }

  /** The superblock: counts, root directory, kernel, heads of the chains of free blocks and free inodes. */
  lemma SuperblockBytes(disk: seq<Sector>, kernel: seq<byte>, files: seq<Input>)
    requires ImageOf(disk, kernel, files)
    ensures |disk| == 8192
    ensures disk[1][0..4] == WordBytes([127]) && disk[1][4..8] == WordBytes([127])
    ensures disk[1][8..12] == WordBytes([2]) && disk[1][12..16] == WordBytes([2048])
    ensures disk[1][16..20] == WordBytes([Start(kernel, files, |files|)])
    ensures disk[1][20..24] == WordBytes([3 + |files|])
  {
    hide FilesPlaced, Chained, DataAt, EntriesEmpty, RootShows, GetWord, WordBytes, InodeOf;
    WordOnDisk(disk[1], 0);
    WordOnDisk(disk[1], 1);
    WordOnDisk(disk[1], 2);
    WordOnDisk(disk[1], 3);
    WordOnDisk(disk[1], 4);
    WordOnDisk(disk[1], 5);
  }

  /** Entry i of the root directory, whose only block is the first behind the kernel: inode number and name, with zeros
      behind it. */
  ghost predicate EntryBytes(dir: Sector, i: nat, ino: nat, name: seq<byte>)
    requires i < 16 && ino < 0x1_0000_0000 && |name| <= 28
  {
    && dir[32 * i..32 * i + 4] == WordBytes([ino]) && dir[32 * i + 4..32 * i + 4 + |name|] == name
    && forall k :: 32 * i + 4 + |name| <= k < 32 * i + 32 ==> dir[k] == 0
  }

  /** The inode of a file of `size` bytes that starts in block `start`. */
  ghost predicate InodeBytes(s: Sector, start: nat, size: nat)
    requires start + Sectors(size) < 0x1_0000_0000 && size < 0x1_0000_0000
  {
    && s[0] == 2 && s[1] == 0 && s[8..12] == WordBytes([1]) && s[12..16] == WordBytes([size])
    && Sectors(size) <= 124 && forall j :: 0 <= j < Sectors(size) ==> AddrBytes(s, start, j)
  }

  ghost predicate AddrBytes(s: Sector, start: nat, j: nat)
    requires start + j < 0x1_0000_0000 && j < 124
  {
    s[16 + 4 * j..20 + 4 * j] == WordBytes([start + j])
  }

  lemma EntryOnDisk(dir: Sector, i: nat, name: seq<byte>)
    requires i < 16 && |name| <= FNAMESIZ && EntryName(dir, i) == Padded(name)
    ensures EntryBytes(dir, i, EntryIno(dir, i), name)
  {
    hide GetWord, WordBytes;
    WordOnDisk(dir, 8 * i);
    forall k | 0 <= k < FNAMESIZ
      ensures dir[32 * i + 4 + k] == if k < |name| then name[k] else 0
    {
      assert dir[32 * i + 4 + k] == EntryName(dir, i)[k] == Padded(name)[k];
    }
    assert dir[32 * i + 4..32 * i + 4 + |name|] == name;
    forall k | 32 * i + 4 + |name| <= k < 32 * i + 32
      ensures dir[k] == 0
    {
      assert dir[32 * i + 4 + (k - 32 * i - 4)] == 0;
    }
  }

  lemma InodeOnDisk(s: Sector, start: nat, size: nat)
    requires InodeShows(InodeOf(s), start, size) && start + Sectors(size) <= NSECTOR && size < 0x1_0000_0000
    ensures InodeBytes(s, start, size)
  {
    hide GetWord, WordBytes;
    WordOnDisk(s, 2);
    WordOnDisk(s, 3);
    forall j | 0 <= j < Sectors(size)
      ensures AddrBytes(s, start, j)
    {
      WordOnDisk(s, 4 + j);
      assert InodeOf(s).addr[j] == GetWord(s, 4 + j);
    }
  }

  /** Everything about file i, on the disk. */
  lemma FileOnDisk(disk: seq<Sector>, kernel: seq<byte>, files: seq<Input>, i: nat)
    requires ImageOf(disk, kernel, files) && i < |files|
    ensures |disk| == 8192 && |files| <= 16 && |files[i].name| <= 28 && |files[i].data| <= 124 * 512
    ensures var dir, start, n := 2048 + Sectors(|kernel|), Start(kernel, files, i), |files[i].data|;
            && dir < 8192 && start + Sectors(n) <= 8192
            && EntryBytes(disk[dir], i, 3 + i, files[i].name) && InodeBytes(disk[3 + i], start, n)
            && forall k :: 0 <= k < n ==> disk[start + k / 512][k % 512] == files[i].data[k]
  {
    hide ImageOf, FilePlaced, InodeShows, EntryName, EntryIno, Padded, InodeOf, DataByteAt, InodeBytes, EntryBytes;
    SizeOfImage(disk, kernel, files);
    FileAt(disk, kernel, files, i);
    var dir, start := DirBlock(kernel), Start(kernel, files, i);
    PlacedEntry(disk, dir, i, start, files[i]);
    EntryOnDisk(disk[dir], i, files[i].name);
    InodeLimit(InodeOf(disk[3 + i]), start, |files[i].data|);
    InodeOnDisk(disk[3 + i], start, |files[i].data|);
    forall k | 0 <= k < |files[i].data|
      ensures start + k / 512 < 8192 && disk[start + k / 512][k % 512] == files[i].data[k]
    {
      DataByte(disk, start, files[i].data, k);
    }
  }

  lemma InodeLimit(ip: DInode, start: nat, size: nat)
    requires InodeShows(ip, start, size)
    ensures size <= 124 * 512
  {
  }
}
