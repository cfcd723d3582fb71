/** fs/inode.c: the in-memory inode table, reading files, and looking names up. */
module Inodes {
  import opened Memory
  import opened FileSpec
  import opened Strings
  import opened Disk
  import opened BlockCache

  const NINODE: nat := 64

  /** struct inode without its lock. */
  datatype Inode = Inode(num: word, refcnt: nat, valid: bool, devno: word, d: DInode)

  function NoInode(): DInode {
    DInode(0, 0, 0, 0, 0, 0, seq(NADDR, _ => 0))
  }

  /** What fsinit makes of an entry from ialloc: in use, a device, and with the number 0 it always had. */
  predicate IsConsole(ip: Inode) {
    ip.valid && ip.num == 0 && ip.d.kind == T_DEV
  }

  datatype Slot = Nowhere | At(slot: nat)

  /** Every inode number but 0, which device inodes carry, is in the table at most once, and a valid entry
      agrees with the disk. */
  ghost predicate TableOk(inode: seq<Inode>, flat: seq<Sector>) {
    && |inode| == NINODE && |flat| == NSECTOR
    && (forall i, j :: 0 <= i < j < NINODE && inode[i].valid && inode[j].valid && inode[i].num != 0 ==>
        inode[i].num != inode[j].num)
    && (forall i :: 0 <= i < NINODE && inode[i].valid ==> inode[i].refcnt >= 1)
    && (forall i :: 0 <= i < NINODE && inode[i].valid && inode[i].num != 0 ==>
          inode[i].num < NSECTOR && inode[i].d == InodeOf(flat[inode[i].num]))
  }

  /** The slot that already has inode n in memory, or NINODE. */
  function SlotWith(inode: seq<Inode>, n: word, i: nat): (r: nat)
    requires i <= |inode|
    ensures i <= r <= |inode| && (r < |inode| ==> inode[r].valid && inode[r].num == n)
    ensures forall j :: i <= j < r ==> !(inode[j].valid && inode[j].num == n)
    decreases |inode| - i
  {
    if i == |inode| || (inode[i].valid && inode[i].num == n) then i else SlotWith(inode, n, i + 1)
  }

  /** The first free slot, or NINODE. */
  function FreeSlot(inode: seq<Inode>, i: nat): (r: nat)
    requires i <= |inode|
    ensures i <= r <= |inode| && (r < |inode| ==> !inode[r].valid)
    ensures forall j :: i <= j < r ==> inode[j].valid
    decreases |inode| - i
  {
    if i == |inode| || !inode[i].valid then i else FreeSlot(inode, i + 1)
  }

  /** The table after iget: one more reference to the entry there is, or a new entry read from the disk. */
  function Gotten(inode: seq<Inode>, flat: seq<Sector>, n: word): (seq<Inode>, Slot)
    requires |flat| == NSECTOR && n < NSECTOR
  {
    var i, j := SlotWith(inode, n, 0), FreeSlot(inode, 0);
    if i < |inode| then (inode[i := inode[i].(refcnt := inode[i].refcnt + 1)], At(i))
    else if j < |inode| then (inode[j := Inode(n, 1, true, 0, InodeOf(flat[n]))], At(j))
    else (inode, Nowhere)
  }

  /** The table after irelse. */
  function Dropped(inode: seq<Inode>, i: nat): seq<Inode>
    requires i < |inode|
  {
    if inode[i].refcnt > 1 then inode[i := inode[i].(refcnt := inode[i].refcnt - 1)]
    else inode[i := inode[i].(valid := false)]
  }

  /** iget keeps the table in order, and what it returns is the inode on the disk. */
  lemma GottenOk(inode: seq<Inode>, flat: seq<Sector>, n: word)
    requires TableOk(inode, flat) && n < NSECTOR
    ensures var (t, r) := Gotten(inode, flat, n);
            && TableOk(t, flat) && (r == Nowhere <==> SlotWith(inode, n, 0) == NINODE && FreeSlot(inode, 0) == NINODE)
            && (r.At? ==> r.slot < NINODE && t[r.slot].valid && t[r.slot].num == n && (n != 0 ==>
                t[r.slot].d == InodeOf(flat[n])))
  {
  }

  lemma DroppedOk(inode: seq<Inode>, flat: seq<Sector>, i: nat)
    requires TableOk(inode, flat) && i < NINODE
    ensures TableOk(Dropped(inode, i), flat)
  {
  }

  /** Taking an inode and giving it back changes nothing but the contents of an unused entry. */
  lemma GetThenDrop(inode: seq<Inode>, flat: seq<Sector>, n: word)
    requires TableOk(inode, flat) && n < NSECTOR && Gotten(inode, flat, n).1.At?
    ensures var (t, r) := Gotten(inode, flat, n);
            && r.slot < |t|
            && forall i :: 0 <= i < NINODE ==>
                Dropped(t, r.slot)[i] == inode[i] || (!Dropped(t, r.slot)[i].valid && !inode[i].valid)
  {
  }

  /** Held buffers are untouched and the others are free again. */
  ghost predicate Kept(before: seq<Buf>, after: seq<Buf>) {
    |before| == |after| && forall i :: 0 <= i < |before| ==>
      if before[i].refcnt > 0 then after[i] == before[i] else after[i].refcnt == 0
  }

  lemma KeptHeld(before: seq<Buf>, after: seq<Buf>)
    requires Kept(before, after)
    ensures HeldBufs(after) == HeldBufs(before)
  {
  }

  lemma KeptTransitive(a: seq<Buf>, b: seq<Buf>, c: seq<Buf>)
    requires Kept(a, b) && Kept(b, c)
    ensures Kept(a, c)
  {
  }

  lemma RootRange(flat: seq<Sector>)
    requires HasRoot(flat)
    ensures 0 < RootIno(flat) < NSECTOR
  {
  }

  /** A run of bytes within one sector of a file. */
  lemma SectorSlice(disk: seq<Sector>, d: DInode, at: nat, m: nat)
    requires |disk| == NSECTOR && Readable(d) && at + m <= d.size && 0 < m <= SECTSIZE - at % SECTSIZE
    ensures at / SECTSIZE < |d.addr| && d.addr[at / SECTSIZE] < NSECTOR
    ensures FileBytes(disk, d)[at..at + m] == disk[d.addr[at / SECTSIZE]][at % SECTSIZE..at % SECTSIZE + m]
  {
    SectorOfByte(at, d.size);
    var bytes, part := FileBytes(disk, d)[at..at + m], disk[d.addr[at / SECTSIZE]][at % SECTSIZE..at % SECTSIZE + m];
    forall i | 0 <= i < m
      ensures bytes[i] == part[i]
    {
      SameSector(at, i);
    }
  }

  lemma SameSector(at: nat, i: nat)
    requires at % SECTSIZE + i < SECTSIZE
    ensures (at + i) / SECTSIZE == at / SECTSIZE && (at + i) % SECTSIZE == at % SECTSIZE + i
  {
  }

  lemma NameLength(dir: Sector, i: nat)
    requires i < NDIRENT
    ensures |EntryName(dir, i)| == FNAMESIZ
  {
  }

  /** The outcome of a lookup in the root directory: no entry, no room for its inode, or its inode. */
  ghost predicate Named(inode: seq<Inode>, inode': seq<Inode>, flat: seq<Sector>, path: seq<byte>, ip: Slot)
    requires HasRoot(flat)
  {
    var i := FindEntry(RootDir(flat), path, 0);
    if i == NDIRENT then ip == Nowhere
    else
      var n := EntryIno(RootDir(flat), i);
      if ip == Nowhere then forall j :: 0 <= j < |inode| ==> inode[j].valid && inode[j].num != n
      else ip.slot < |inode'| && inode'[ip.slot].valid && inode'[ip.slot].num == n
           && (n != 0 ==> n < NSECTOR && inode'[ip.slot].d == InodeOf(flat[n]))
  }

  /** Between the two lookups only an unused entry has changed, so the second one finds what it would have found. */
  lemma LookedUp(before: seq<Inode>, between: seq<Inode>, after: seq<Inode>, flat: seq<Sector>, path: seq<byte>,
                 ip: Slot)
    requires |before| == NINODE && TableOk(between, flat) && HasRoot(flat)
    requires forall i :: 0 <= i < NINODE ==> between[i] == before[i] || (!between[i].valid && !before[i].valid)
    requires var i := FindEntry(RootDir(flat), path, 0);
             if i < NDIRENT then
               EntryIno(RootDir(flat), i) < NSECTOR && (after, ip) == Gotten(between, flat, EntryIno(RootDir(flat), i))
             else ip == Nowhere
    ensures Named(before, after, flat, path, ip)
  {
    hide TableOk, RootDir, EntryIno, HasRoot, InodeOf;
    var i := FindEntry(RootDir(flat), path, 0);
    if i < NDIRENT {
      GottenOk(between, flat, EntryIno(RootDir(flat), i));
      assert forall j :: 0 <= j < NINODE ==> between[j].valid ==> before[j].valid && before[j].num == between[j].num;
    }
  }

  lemma RootInode(inode: seq<Inode>, flat: seq<Sector>, i: nat)
    requires TableOk(inode, flat) && HasRoot(flat) && i < NINODE && inode[i].valid && inode[i].num == RootIno(flat)
    ensures |inode[i].d.addr| == NADDR && inode[i].d.addr[0] < NSECTOR && flat[inode[i].d.addr[0]] == RootDir(flat)
  {
  }

  /** Every entry of the root directory names a block of the disk. */
  ghost predicate DirSane(flat: seq<Sector>) {
    HasRoot(flat) && forall i :: 0 <= i < NDIRENT ==> EntryIno(RootDir(flat), i) < NSECTOR
  }

  /** getrootdir gets the root directory. */
  ghost predicate CanName(inode: seq<Inode>, flat: seq<Sector>) {
    |inode| == NINODE && DirSane(flat) && Gotten(inode, flat, RootIno(flat)).1.At?
  }

  /** The inode table and the inode after the lookup of a name in the root directory. */
  ghost function EntryLookup(inode: seq<Inode>, flat: seq<Sector>, path: seq<byte>): (seq<Inode>, Slot)
    requires DirSane(flat)
  {
    var i := FindEntry(RootDir(flat), path, 0);
    if i < NDIRENT then Gotten(inode, flat, EntryIno(RootDir(flat), i)) else (inode, Nowhere)
  }

  /** namei: the root directory for a path that starts with a slash, else an entry of the root directory, which is
      given back before it is searched. */
  ghost function NameLookup(inode: seq<Inode>, flat: seq<Sector>, path: seq<byte>): (seq<Inode>, Slot)
    requires CanName(inode, flat) && path != []
  {
    var (t, root) := Gotten(inode, flat, RootIno(flat));
    if path[0] == 0x2F then (t, root) else EntryLookup(Dropped(t, root.slot), flat, path)
  }

  /** A lookup finds what the directory says, whether or not the root directory was in memory. */
  lemma LookupNamed(inode: seq<Inode>, flat: seq<Sector>, path: seq<byte>)
    requires CanName(inode, flat) && path != [] && path[0] != 0x2F && TableOk(inode, flat)
    ensures var (t, ip) := NameLookup(inode, flat, path); Named(inode, t, flat, path, ip)
  {
    hide TableOk, RootDir, EntryIno, InodeOf, Named, FindEntry, Gotten, Dropped;
    RootRange(flat);
    GottenOk(inode, flat, RootIno(flat));
    GetThenDrop(inode, flat, RootIno(flat));
    var (t, root) := Gotten(inode, flat, RootIno(flat));
    DroppedOk(t, flat, root.slot);
    var (u, ip) := EntryLookup(Dropped(t, root.slot), flat, path);
    LookedUp(inode, Dropped(t, root.slot), u, flat, path, ip);
  }

  class FileSystem {
    const cache: Cache
    const inode: array<Inode>
    var rootdir: word // sysfs.rootdir

    ghost predicate Valid()
      reads this, cache, cache.blocks, inode
    {
      && cache.Valid() && cache.blocks.Length == NBUF && inode.Length == NINODE && TableOk(inode[..], cache.flat)
      && HasRoot(cache.flat) && rootdir == RootIno(cache.flat)
    }

    /** The disk is as it was, held buffers are untouched, and no other buffer is kept. */
    twostate predicate Undisturbed()
      reads this, cache, cache.blocks
    {
      && cache.flat == old(cache.flat) && cache.pending == old(cache.pending) && cache.disk == old(cache.disk)
      && Kept(old(cache.blocks[..]), cache.blocks[..]) && HeldBufs(cache.blocks[..]) == old(HeldBufs(cache.blocks[..]))
    }

    /** fsinit, and the copy of the superblock that it takes: the first two entries are the console's. */
    constructor (c: Cache)
      requires c.Valid() && c.blocks.Length == NBUF && HasRoot(c.disk) && c.pending == {}
      ensures Valid() && cache == c && fresh(inode) && inode.Length == NINODE
      ensures forall i :: 0 <= i < NINODE ==>
                if i < 2 then IsConsole(inode[i]) else !inode[i].valid
    {
      cache := c;
      inode := new Inode[NINODE](i => Inode(0, 1, i < 2, 0, if i < 2 then NoInode().(kind := T_DEV) else NoInode()));
      rootdir := RootIno(c.disk);
      NothingPending(c.blocks[..], c.disk, c.flat);
    }

    /** bread, copy, brelse. */
    method Fetch(n: nat) returns (data: Sector)
      requires cache.Valid() && cache.blocks.Length == NBUF && n < NSECTOR && |HeldBufs(cache.blocks[..])| < NBUF
      modifies cache.blocks, cache`disk
      ensures cache.Valid() && Undisturbed() && n < |cache.flat| && data == cache.flat[n]
    {
      ghost var before := cache.blocks[..];
      var b := cache.BRead(n);
      data := cache.blocks[b].data;
      PendingShared(before, cache.blocks[..], cache.disk, cache.flat, cache.pending, b);
      cache.BRelse(b);
      KeptHeld(before, cache.blocks[..]);
    }

    method IGet(inum: word) returns (ip: Slot)
      requires Valid() && inum < NSECTOR && |HeldBufs(cache.blocks[..])| < NBUF
      modifies inode, cache.blocks, cache`disk
      ensures Valid() && Undisturbed()
      ensures |cache.flat| == NSECTOR && (inode[..], ip) == Gotten(old(inode[..]), cache.flat, inum)
    {
      hide CacheOk, TableOk, HasRoot, InodeOf, HeldBufs, RootIno;
      ghost var before, flat := inode[..], cache.flat;
      GottenOk(before, flat, inum);
      for i := 0 to NINODE
        invariant inode[..] == before && SlotWith(before, inum, 0) == SlotWith(before, inum, i)
      {
        if inode[i].valid && inode[i].num == inum {
          inode[i] := inode[i].(refcnt := inode[i].refcnt + 1);
          assert inode[..] == before[i := inode[i]];
          return At(i);
        }
      }
      ip := Nowhere;
      for i := 0 to NINODE
        invariant inode[..] == before && ip == Nowhere && FreeSlot(before, 0) == FreeSlot(before, i)
      {
        if !inode[i].valid {
          ip := At(i);
          inode[i] := inode[i].(valid := true);
          inode[i] := inode[i].(num := inum);
          inode[i] := inode[i].(refcnt := 1);
          inode[i] := inode[i].(devno := 0);
          assert inode[..] == before[i := inode[i]];
          break;
        }
      }
      if ip == Nowhere {
        return;
      }
      var data := Fetch(inum);
      inode[ip.slot] := inode[ip.slot].(d := InodeOf(data));
      assert inode[..] == before[ip.slot := inode[ip.slot]];
    }

    method IRelse(ip: nat)
      requires Valid() && ip < inode.Length
      modifies inode
      ensures Valid() && inode[..] == Dropped(old(inode[..]), ip)
    {
      ghost var before := inode[..];
      DroppedOk(before, cache.flat, ip);
      if inode[ip].refcnt > 1 {
        inode[ip] := inode[ip].(refcnt := inode[ip].refcnt - 1);
        assert inode[..] == before[ip := inode[ip]];
        return;
      }
      inode[ip] := inode[ip].(valid := false);
      assert inode[..] == before[ip := inode[ip]];
    }

    /** Read [offset, offset + size) of a file, as much of it as there is. */
    method ReadI(ip: nat, offset: word, size: word) returns (r: int, dst: seq<byte>)
      requires Valid() && ip < inode.Length && Readable(inode[ip].d) && |HeldBufs(cache.blocks[..])| < NBUF
      modifies cache.blocks, cache`disk
      ensures Valid() && Undisturbed() && |cache.flat| == NSECTOR
      ensures r == ReadCount(inode[ip].d.size, offset, size)
      ensures var left := inode[ip].d.size - offset;
              r == if left >= 0 && offset + size < 0x1_0000_0000 && offset < 124 * 512
                   then (if size <= left then size else left) else -1
      ensures r == -1 ==> dst == []
      ensures r >= 0 ==>
                offset + r <= inode[ip].d.size && |dst| == r
                && dst == FileBytes(cache.flat, inode[ip].d)[offset..offset + r]
    {
      hide CacheOk, TableOk, FileByte;
      ghost var flat, file := cache.flat, FileBytes(cache.flat, inode[ip].d);
      dst := [];
      var d := inode[ip].d;
      if offset > d.size || offset + size >= 0x1_0000_0000 || offset / SECTSIZE >= NADDR {
        return -1, [];
      }
      var want := size;
      if offset + want > d.size {
        want := d.size - offset;
      }
      var cnt, at := 0, offset;
      while cnt < want
        invariant 0 <= cnt <= want && at == offset + cnt
        invariant Valid() && Undisturbed() && inode[ip].d == d && dst == file[offset..at]
        decreases want - cnt
      {
        SectorOfByte(at, d.size);
        var data := Fetch(d.addr[at / SECTSIZE]);
        var m := if want - cnt < SECTSIZE - at % SECTSIZE then want - cnt else SECTSIZE - at % SECTSIZE;
        SectorSlice(flat, d, at, m);
        assert file[offset..at] + file[at..at + m] == file[offset..at + m];
        dst := dst + data[at % SECTSIZE..at % SECTSIZE + m];
        cnt, at := cnt + m, at + m;
      }
      r := want;
    }

    /** The directory entry for a name, as an inode. */
    method DirLookup(dir: Sector, fname: seq<byte>) returns (ip: Slot)
      requires Valid() && HasNul(fname) && |HeldBufs(cache.blocks[..])| < NBUF
      requires forall i :: 0 <= i < NDIRENT ==> EntryIno(dir, i) < NSECTOR
      modifies inode, cache.blocks, cache`disk
      ensures Valid() && Undisturbed() && |cache.flat| == NSECTOR
      ensures var i := FindEntry(dir, fname, 0);
              if i < NDIRENT then (inode[..], ip) == Gotten(old(inode[..]), cache.flat, EntryIno(dir, i))
              else ip == Nowhere && inode[..] == old(inode[..])
    {
      hide CacheOk, TableOk, Gotten, SameName, EntryName, EntryIno;
      for i := 0 to NDIRENT
        invariant inode[..] == old(inode[..]) && Valid() && Undisturbed()
        invariant FindEntry(dir, fname, 0) == FindEntry(dir, fname, i)
      {
        NameLength(dir, i);
        var same := StrCmp(fname, EntryName(dir, i), FNAMESIZ);
        if same != 0 {
          ip := IGet(EntryIno(dir, i));
          return;
        }
      }
      ip := Nowhere;
    }

    /** The entry for a name in the root directory, whose inode is in slot ip and is given back. */
    method RootEntry(ip: nat, path: seq<byte>) returns (r: Slot)
      requires Valid() && HasNul(path) && |HeldBufs(cache.blocks[..])| + 1 < NBUF && DirSane(cache.flat)
      requires ip < NINODE == inode.Length && inode[ip].valid && inode[ip].num == rootdir
      modifies inode, cache.blocks, cache`disk
      ensures Valid() && Undisturbed() && DirSane(cache.flat)
      ensures (inode[..], r) == EntryLookup(Dropped(old(inode[..]), ip), cache.flat, path)
    {
      hide CacheOk, TableOk, Gotten, Dropped, FindEntry, EntryIno, RootDir, HasRoot, HeldBufs;
      ghost var blocks, flat := cache.blocks[..], cache.flat;
      RootInode(inode[..], flat, ip);
      var b := cache.BRead(inode[ip].d.addr[0]);
      PendingShared(blocks, cache.blocks[..], cache.disk, flat, cache.pending, b);
      HeldOneMore(blocks, cache.blocks[..], b);
      IRelse(ip);
      r := DirLookup(cache.blocks[b].data, path);
      cache.BRelse(b);
      KeptHeld(blocks, cache.blocks[..]);
    }

    /** The inode a path names, or none. */
    method NameI(path: seq<byte>) returns (ip: Slot)
      requires Valid() && HasNul(path) && |HeldBufs(cache.blocks[..])| + 1 < NBUF
      requires CanName(inode[..], cache.flat) // else panic("no rootdir"), or a directory that names no block
      modifies inode, cache.blocks, cache`disk
      ensures Valid() && Undisturbed() && path != [] && CanName(old(inode[..]), cache.flat)
      ensures (inode[..], ip) == NameLookup(old(inode[..]), cache.flat, path)
    {
      hide CacheOk, TableOk, Gotten, Dropped, EntryIno, RootDir, HasRoot, HeldBufs, Kept, EntryLookup;
      ghost var before, flat, blocks := inode[..], cache.flat, cache.blocks[..];
      RootRange(flat);
      GottenOk(before, flat, rootdir);
      ip := IGet(rootdir);
      if path[0] == 0x2F {
        return;
      }
      DroppedOk(inode[..], flat, ip.slot);
      ghost var blocks' := cache.blocks[..];
      ip := RootEntry(ip.slot, path);
      KeptTransitive(blocks, blocks', cache.blocks[..]);
    }
  }
}
