/** Looking names up keeps the inode table small: it never fills, so namei always gets the root directory. */
module Naming {
  import opened Counting
  import opened Memory
  import opened Disk
  import opened Inodes

  /** A number by which namei can get an inode. */
  ghost predicate Nameable(flat: seq<Sector>, n: word)
    requires HasRoot(flat)
  {
    0 < n && (n == RootIno(flat) || exists i :: 0 <= i < NDIRENT && EntryIno(RootDir(flat), i) == n)
  }

  /** The first two entries are the console's; all others in use came from the root directory. */
  ghost predicate OnlyNamed(inode: seq<Inode>, flat: seq<Sector>)
    requires HasRoot(flat)
  {
    && |inode| == NINODE && IsConsole(inode[0]) && IsConsole(inode[1])
    && forall i :: 2 <= i < NINODE && inode[i].valid ==> Nameable(flat, inode[i].num)
  }

  /** There is an unused entry of the inode table. */
  ghost predicate TableHasRoom(inode: seq<Inode>) {
    exists j :: 0 <= j < |inode| && !inode[j].valid
  }

  function EntryNumbers(flat: seq<Sector>): seq<nat>
    requires HasRoot(flat)
  {
    seq(NDIRENT, i requires 0 <= i < NDIRENT => EntryIno(RootDir(flat), i))
  }

  lemma NameableNumber(flat: seq<Sector>, n: word)
    requires HasRoot(flat) && Nameable(flat, n)
    ensures n as nat in Elements(EntryNumbers(flat) + [RootIno(flat)])
  {
    var numbers := EntryNumbers(flat) + [RootIno(flat) as nat];
    if n == RootIno(flat) {
      assert numbers[NDIRENT] == n;
    } else {
      var i :| 0 <= i < NDIRENT && EntryIno(RootDir(flat), i) == n;
      assert numbers[i] == n;
    }
  }

  /** At most 17 numbers can be named and each is in the table at most once, so of its 64 entries some are unused. */
  lemma RoomAlways(inode: seq<Inode>, flat: seq<Sector>)
    requires HasRoot(flat) && TableOk(inode, flat) && OnlyNamed(inode, flat)
    ensures TableHasRoom(inode)
  {
    hide RootDir, EntryIno, InodeOf, HasRoot, RootIno;
    if forall j :: 0 <= j < NINODE ==> inode[j].valid {
      var inums: map<nat, nat> := map i: nat | 2 <= i < NINODE :: inode[i].num as nat;
      var numbers := EntryNumbers(flat) + [RootIno(flat) as nat];
      ElementsAtMost(numbers);
      CountRange(inums.Keys, 2, NINODE - 2);
      assert |inums| == |inums.Keys|;
      CountValues(inums);
      forall i | i in inums
        ensures inums[i] in Elements(numbers)
      {
        NameableNumber(flat, inode[i].num);
      }
      assert inums.Values <= Elements(numbers);
      SubsetCount(inums.Values, Elements(numbers));
    }
  }

  lemma RoomToGet(inode: seq<Inode>, flat: seq<Sector>, n: word)
    requires TableHasRoom(inode) && |inode| == NINODE && |flat| == NSECTOR && n < NSECTOR
    ensures Gotten(inode, flat, n).1.At?
  {
    var j :| 0 <= j < |inode| && !inode[j].valid;
    assert FreeSlot(inode, 0) <= j;
  }

  /** The panic in getrootdir is never reached. */
  lemma RootAlwaysThere(inode: seq<Inode>, flat: seq<Sector>)
    requires DirSane(flat) && TableOk(inode, flat) && OnlyNamed(inode, flat)
    ensures CanName(inode, flat)
  {
    hide TableOk, OnlyNamed, RootDir, EntryIno, InodeOf, Gotten;
    InodeTableSize(inode, flat);
    RootRange(flat);
    RoomAlways(inode, flat);
    RoomToGet(inode, flat, RootIno(flat));
  }

  lemma InodeTableSize(inode: seq<Inode>, flat: seq<Sector>)
    requires TableOk(inode, flat)
    ensures |inode| == NINODE && |flat| == NSECTOR
  {
  }

  /** Inode number 0, which a lookup of an unused directory entry asks for, is the console's. */
  lemma ZeroIsConsole(inode: seq<Inode>, flat: seq<Sector>)
    requires HasRoot(flat) && OnlyNamed(inode, flat)
    ensures Gotten(inode, flat, 0).1 == At(0)
  {
  }

  lemma GottenNamed(inode: seq<Inode>, flat: seq<Sector>, n: word)
    requires HasRoot(flat) && OnlyNamed(inode, flat) && n < NSECTOR && (n == 0 || Nameable(flat, n))
    ensures var (t, ip) := Gotten(inode, flat, n);
            OnlyNamed(t, flat) && (ip.At? ==> ip.slot < NINODE && (n != 0 ==> ip.slot >= 2))
  {
    hide RootDir, EntryIno, InodeOf, RootIno, Nameable;
    if n == 0 {
      ZeroIsConsole(inode, flat);
    }
  }

  lemma DroppedNamed(inode: seq<Inode>, flat: seq<Sector>, i: nat)
    requires HasRoot(flat) && OnlyNamed(inode, flat) && 2 <= i < NINODE
    ensures OnlyNamed(Dropped(inode, i), flat)
  {
    hide Nameable;
  }

  /** namei keeps the table in order and finds nothing only if there is no such entry: it never runs out of inodes. */
  lemma LookupKeeps(inode: seq<Inode>, flat: seq<Sector>, path: seq<byte>)
    requires CanName(inode, flat) && path != [] && TableOk(inode, flat) && OnlyNamed(inode, flat)
    ensures var (t, ip) := NameLookup(inode, flat, path);
            && TableOk(t, flat) && OnlyNamed(t, flat) && (ip.At? ==> ip.slot < |t|)
            && (ip == Nowhere <==> path[0] != 0x2F && FindEntry(RootDir(flat), path, 0) == NDIRENT)
  {
    hide TableOk, OnlyNamed, RootDir, EntryIno, InodeOf, FindEntry, Gotten, Dropped;
    InodeTableSize(inode, flat);
    RootRange(flat);
    GottenOk(inode, flat, RootIno(flat));
    assert Nameable(flat, RootIno(flat));
    GottenNamed(inode, flat, RootIno(flat));
    var (t, root) := Gotten(inode, flat, RootIno(flat));
    if path[0] != 0x2F {
      var u := Dropped(t, root.slot);
      DroppedOk(t, flat, root.slot);
      DroppedNamed(t, flat, root.slot);
      InodeTableSize(u, flat);
      var i := FindEntry(RootDir(flat), path, 0);
      if i < NDIRENT {
        var n := EntryIno(RootDir(flat), i);
        assert n != 0 ==> Nameable(flat, n);
        RoomAlways(u, flat);
        RoomToGet(u, flat, n);
        GottenOk(u, flat, n);
        GottenNamed(u, flat, n);
      }
    }
  }

  /** A leading slash means the root directory itself. */
  lemma SlashIsRoot(inode: seq<Inode>, flat: seq<Sector>, path: seq<byte>)
    requires CanName(inode, flat) && path != [] && path[0] == 0x2F && TableOk(inode, flat)
    ensures var (t, ip) := NameLookup(inode, flat, path);
            && ip.At? && ip.slot < |t| && t[ip.slot].valid && t[ip.slot].num == RootIno(flat)
            && t[ip.slot].d == InodeOf(flat[RootIno(flat)])
  {
    hide TableOk, RootDir, EntryIno, InodeOf, FindEntry, Gotten, Dropped;
    InodeTableSize(inode, flat);
    RootRange(flat);
    GottenOk(inode, flat, RootIno(flat));
    var (t, root) := Gotten(inode, flat, RootIno(flat));
    InodeTableSize(t, flat);
  }

  /** An entry in use is still the same inode. */
  predicate SameInode(a: Inode, b: Inode) {
    a.valid ==> b.valid && b.num == a.num && b.d == a.d
  }

  lemma GottenStays(inode: seq<Inode>, flat: seq<Sector>, n: word, i: nat)
    requires |flat| == NSECTOR && n < NSECTOR && i < |inode|
    ensures i < |Gotten(inode, flat, n).0| && SameInode(inode[i], Gotten(inode, flat, n).0[i])
  {
    hide InodeOf;
  }

  /** A lookup leaves every inode that is in use in its place. */
  lemma LookupStays(inode: seq<Inode>, flat: seq<Sector>, path: seq<byte>, i: nat)
    requires CanName(inode, flat) && path != [] && TableOk(inode, flat) && i < NINODE
    ensures i < |NameLookup(inode, flat, path).0| && SameInode(inode[i], NameLookup(inode, flat, path).0[i])
  {
    hide TableOk, RootDir, EntryIno, InodeOf, FindEntry, Gotten, Dropped;
    InodeTableSize(inode, flat);
    RootRange(flat);
    GottenOk(inode, flat, RootIno(flat));
    GetThenDrop(inode, flat, RootIno(flat));
    GottenStays(inode, flat, RootIno(flat), i);
    var (t, root) := Gotten(inode, flat, RootIno(flat));
    if path[0] != 0x2F {
      var u := Dropped(t, root.slot);
      DroppedOk(t, flat, root.slot);
      InodeTableSize(u, flat);
      var e := FindEntry(RootDir(flat), path, 0);
      if e < NDIRENT {
        GottenStays(u, flat, EntryIno(RootDir(flat), e), i);
      }
    }
  }
}
