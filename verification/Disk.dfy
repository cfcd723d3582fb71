/** Disk sectors and what mkfs and the kernel keep in them: words, inodes, directories. */
module Disk {
  import opened Memory
  import opened FileSpec
  import opened Strings

  const NSECTOR: nat := 8192
  const NENTRY: nat := 128 // words in a sector
  const NDIRENT: nat := 16
  const FNAMESIZ: nat := 28
  const DIRENT: nat := 32  // bytes in a directory entry
  const SUPERBLOCK: nat := 1
  const T_DIR: nat := 1
  const T_FILE: nat := 2
  const T_DEV: nat := 3

  type Sector = s: seq<byte> | |s| == SECTSIZE witness seq(SECTSIZE, _ => 0)

  function ZeroSector(): Sector {
    seq(SECTSIZE, _ => 0)
  }

  // ---- words and half words ------------------------------------------------------------------

  function GetWord(s: Sector, k: nat): word
    requires k < NENTRY
  {
    WordOfBytes(s[4 * k], s[4 * k + 1], s[4 * k + 2], s[4 * k + 3])
  }

  function PutWord(s: Sector, k: nat, w: word): Sector
    requires k < NENTRY
  {
    seq(SECTSIZE, i requires 0 <= i < SECTSIZE => if i / 4 == k then ByteOfWord(w, i % 4) else s[i])
  }

  function GetHalf(s: Sector, o: nat): nat
    requires o + 2 <= SECTSIZE
  {
    s[o] as int + 0x100 * (s[o + 1] as int)
  }

  function PutHalf(s: Sector, o: nat, v: nat): Sector
    requires o + 2 <= SECTSIZE && v < 0x1_0000
  {
    s[o := v % 0x100][o + 1 := v / 0x100]
  }

  lemma PutWordAt(s: Sector, k: nat, w: word, j: nat)
    requires k < NENTRY && j < NENTRY
    ensures GetWord(PutWord(s, k, w), j) == if j == k then w else GetWord(s, j)
  {
    ByteWordRoundTrip(w);
    InWord(j, 0);
    InWord(j, 1);
    InWord(j, 2);
    InWord(j, 3);
  }

  lemma InWord(j: nat, b: nat)
    requires b < 4
    ensures (4 * j + b) / 4 == j && (4 * j + b) % 4 == b
  {
  }

  lemma PutWordByte(s: Sector, k: nat, w: word, i: nat)
    requires k < NENTRY && i < SECTSIZE && i / 4 != k
    ensures PutWord(s, k, w)[i] == s[i]
  {
  }

  lemma ZeroWord(k: nat)
    requires k < NENTRY
    ensures GetWord(ZeroSector(), k) == 0
  {
  }

  // ---- inodes --------------------------------------------------------------------------------

  /** An inode as read from the disk: struct dinode. */
  datatype DInode = DInode(kind: nat, uid: nat, gid: nat, mode: nat, nlink: word, size: word, addr: seq<word>)

  function InodeOf(s: Sector): DInode {
    DInode(GetHalf(s, 0), GetHalf(s, 2), GetHalf(s, 4), GetHalf(s, 6), GetWord(s, 2), GetWord(s, 3),
           seq(NADDR, j requires 0 <= j < NADDR => GetWord(s, 4 + j)))
  }

  /** How many sectors hold n bytes. */
  function Sectors(n: nat): nat { (n + 511) / 512 }

  /** An inode that readi can read from end to end: it is no device and its blocks are on the disk. */
  predicate Readable(ip: DInode) {
    && ip.kind != T_DEV && |ip.addr| == NADDR && ip.size <= NADDR * SECTSIZE
    && forall j :: 0 <= j < Sectors(ip.size) ==> ip.addr[j] < NSECTOR
  }

  /** Byte k of the file with inode ip. */
  function FileByte(disk: seq<Sector>, ip: DInode, k: nat): byte
    requires |disk| == NSECTOR && Readable(ip) && k < ip.size
  {
    SectorOfByte(k, ip.size);
    disk[ip.addr[k / SECTSIZE]][k % SECTSIZE]
  }

  lemma SectorOfByte(k: nat, size: nat)
    requires k < size <= NADDR * SECTSIZE
    ensures k / SECTSIZE < Sectors(size) <= NADDR
  {
  }

  /** The contents of the file with inode ip. */
  function FileBytes(disk: seq<Sector>, ip: DInode): seq<byte>
    requires |disk| == NSECTOR && Readable(ip)
  {
    seq(ip.size, k requires 0 <= k < ip.size => FileByte(disk, ip, k))
  }

  // ---- directories ---------------------------------------------------------------------------

  function EntryIno(s: Sector, i: nat): word
    requires i < NDIRENT
  {
    GetWord(s, 8 * i)
  }

  function EntryName(s: Sector, i: nat): seq<byte>
    requires i < NDIRENT
  {
    s[DIRENT * i + 4..DIRENT * (i + 1)]
  }

  /** The first entry from i on whose name is `path` (a C string), as dirlookup finds it. */
  ghost function FindEntry(s: Sector, path: seq<byte>, i: nat): (r: nat)
    requires i <= NDIRENT
    ensures i <= r <= NDIRENT && (r < NDIRENT ==> SameName(path, EntryName(s, r), FNAMESIZ))
    ensures forall j :: i <= j < r ==> !SameName(path, EntryName(s, j), FNAMESIZ)
    decreases NDIRENT - i
  {
    if i == NDIRENT || SameName(path, EntryName(s, i), FNAMESIZ) then i else FindEntry(s, path, i + 1)
  }

  /** The inode number of the root directory, in the superblock. */
  function RootIno(disk: seq<Sector>): word
    requires |disk| == NSECTOR
  {
    GetWord(disk[SUPERBLOCK], 2)
  }

  /** The root directory can be read: its inode and its first block are on the disk. */
  ghost predicate HasRoot(disk: seq<Sector>) {
    |disk| == NSECTOR && 0 < RootIno(disk) < NSECTOR && InodeOf(disk[RootIno(disk)]).addr[0] < NSECTOR
  }

  function RootDir(disk: seq<Sector>): Sector
    requires HasRoot(disk)
  {
    disk[InodeOf(disk[RootIno(disk)]).addr[0]]
  }
}
