/** The whole machine: every page has exactly one use. */
module WholeMachine {
  import opened Counting
  import opened Memory
  import opened Paging
  import opened Mapping
  import opened Unmapping
  import opened KernelMap
  import opened Losses
  import opened Virtual
  import opened Loading
  import opened Allocator
  import opened Vm
  import opened ProcTable
  import opened KernelMem
  import opened ProcCalls

  // ---- what a page is used for, read off the kernel's own tables and memory -------------------

  /** Who refers to a page: the free list, or a process through its table entry, directory or page tables. */
  datatype Use = Listed | Stack(i: nat) | Directory(i: nat) | Table(i: nat, j: nat) | Frame(i: nat, v: nat)

  /** The directory word of process i for slot j. */
  function DirWord(k: KState, s: State, i: nat, j: nat): word {
    if i < |k.proc| && k.proc[i].pgdir != 0 && k.proc[i].pgdir / PAGESIZE < |s.mem| && j < NSLOT
    then s.mem[k.proc[i].pgdir / PAGESIZE][j] else 0
  }

  /** The page table entry of process i for page v. */
  function TabWord(k: KState, s: State, i: nat, v: nat): word {
    var pde := DirWord(k, s, i, v / NSLOT);
    if Present(pde) && PteAddr(pde) / PAGESIZE < |s.mem| then s.mem[PteAddr(pde) / PAGESIZE][v % NSLOT] else 0
  }

  ghost predicate Uses(k: KState, s: State, p: nat, u: Use) {
    match u
    case Listed => p in Follow(s.mem, s.head, |s.free|)
    case Stack(i) => i < |k.proc| && k.proc[i].kstack != 0 && k.proc[i].kstack / PAGESIZE == p
    case Directory(i) => i < |k.proc| && k.proc[i].pgdir != 0 && k.proc[i].pgdir / PAGESIZE == p
    case Table(i, j) => Present(DirWord(k, s, i, j)) && PteAddr(DirWord(k, s, i, j)) / PAGESIZE == p
    case Frame(i, v) => UPAGE <= v && Present(TabWord(k, s, i, v)) && PteAddr(TabWord(k, s, i, v)) / PAGESIZE == p
  }

  /** The owner that the account gives to a page with use u. */
  ghost predicate Accounted(k: KState, s: State, p: nat, u: Use)
    requires p < |s.owner|
  {
    match u
    case Listed => s.owner[p].Free?
    case Stack(i) => i < |k.proc| && s.owner[p] == KStack(i)
    case Directory(i) => i < |k.proc| && k.proc[i].pgdir != 0 && s.owner[p] == Dir(k.proc[i].pgdir / PAGESIZE)
    case Table(i, j) => i < |k.proc| && k.proc[i].pgdir != 0 && s.owner[p] == Tab(k.proc[i].pgdir / PAGESIZE, j)
    case Frame(i, v) => i < |k.proc| && k.proc[i].pgdir != 0 && s.owner[p] == Frm(k.proc[i].pgdir / PAGESIZE, v)
  }

  lemma {:induction false} ReversedMember(s: seq<nat>, x: nat)
    ensures x in Reversed(s) <==> x in s
  {
    if s != [] {
      ReversedMember(s[..|s| - 1], x);
      assert s == s[..|s| - 1] + [s[|s| - 1]];
    }
  }

  lemma ListedIsFree(kend: nat, s: State, p: nat)
    requires Good(kend, s) && p < NP
    ensures |s.owner| == NP && (p in Follow(s.mem, s.head, |s.free|) <==> s.owner[p].Free?)
  {
    ListIsThreaded(kend, s, |s.free|, |s.free|);
    assert s.free[..|s.free|] == s.free;
    ReversedMember(s.free, p);
    FreeListExact(kend, s);
  }

  /** Process i's directory, and what its words say. */
  lemma ProcSpace(kend: nat, rodata: nat, k: KState, s: State, i: nat, j: nat)
    requires MemInv(k.proc, s, rodata) && i < NPROC == |k.proc| && k.proc[i].pgdir != 0 && j < NSLOT && Good(kend, s)
    ensures var d := k.proc[i].pgdir / PAGESIZE;
            && d in s.spaces && d < NP == |s.mem| && |s.owner| == NP && s.owner[d] == Dir(d)
            && k.proc[i].pgdir == d * PAGESIZE
            && (Present(DirWord(k, s, i, j)) <==> j in s.spaces[d].tabs)
            && (j in s.spaces[d].tabs ==>
                s.spaces[d].tabs[j] < NP && PteAddr(DirWord(k, s, i, j)) == s.spaces[d].tabs[j] * PAGESIZE)
  {
    hide Good, Present;
    assert SlotMem(s, rodata, i, k.proc[i]);
    ValidSizes(kend, s);
    var d := k.proc[i].pgdir / PAGESIZE;
    DirectoryWord(kend, s, d, j);
    if j in s.spaces[d].tabs {
      PageParts(s.spaces[d].tabs[j], 7);
    }
  }

  lemma ProcPage(kend: nat, rodata: nat, k: KState, s: State, i: nat, v: nat)
    requires MemInv(k.proc, s, rodata) && i < NPROC == |k.proc| && k.proc[i].pgdir != 0 && v / NSLOT < NSLOT
    requires Good(kend, s)
    ensures var d := k.proc[i].pgdir / PAGESIZE;
            && d in s.spaces && |s.mem| == NP
            && (Present(TabWord(k, s, i, v)) <==> v in s.spaces[d].pages)
            && (v in s.spaces[d].pages ==> PteAddr(TabWord(k, s, i, v)) == s.spaces[d].pages[v].frame * PAGESIZE)
  {
    hide Good, Present, PteAddr, DirWord, MemInv;
    var d := k.proc[i].pgdir / PAGESIZE;
    ProcSpace(kend, rodata, k, s, i, v / NSLOT);
    ZeroAbsent();
    if v / NSLOT in s.spaces[d].tabs {
      PteOfPage(kend, s, d, v);
    } else {
      NoTableNoPages(kend, s, d, v);
      SlotRange(v);
    }
  }

  lemma SlotRange(v: nat)
    ensures v / NSLOT * NSLOT <= v < (v / NSLOT + 1) * NSLOT
  {
  }

  /** A page in use is accounted for, and is one that the allocator manages. */
  lemma UseIsAccounted(kend: nat, rodata: nat, k: KState, s: State, p: nat, u: Use)
    requires MemInv(k.proc, s, rodata) && |k.proc| == NPROC && Uses(k, s, p, u) && Good(kend, s)
    ensures |s.owner| == NP && p < NP && Accounted(k, s, p, u)
    ensures s.owner[p] != Fixed && s.owner[p] != Retired
  {
    hide Good, Present, PteAddr, MemInv, DirWord, TabWord, SpaceComplete, Follow;
    ValidSizes(kend, s);
    ZeroAbsent();
    match u {
      case Listed =>
        FollowInRange(s.mem, s.head, |s.free|, p);
        ListedIsFree(kend, s, p);
      case Stack(i) =>
        SlotStack(k.proc, s, rodata, i);
      case Directory(i) =>
        ProcSpace(kend, rodata, k, s, i, 0);
      case Table(i, j) =>
        DirWordThere(k, s, i, j);
        ProcSpace(kend, rodata, k, s, i, j);
        SlotOwner(kend, s, k.proc[i].pgdir / PAGESIZE, j);
      case Frame(i, v) =>
        TabWordThere(k, s, i, v);
        ProcPage(kend, rodata, k, s, i, v);
        FrameOwner(kend, s, k.proc[i].pgdir / PAGESIZE, v);
    }
  }

  lemma {:induction false} FollowInRange(mem: seq<Page>, a: word, n: nat, p: nat)
    requires p in Follow(mem, a, n)
    ensures p < |mem|
    decreases n
  {
    if p != a / PAGESIZE {
      FollowInRange(mem, mem[a / PAGESIZE][0], n - 1, p);
    }
  }

  lemma SlotStack(proc: seq<Proc>, s: State, rodata: nat, i: nat)
    requires MemInv(proc, s, rodata) && i < |proc| && proc[i].kstack != 0
    ensures |s.owner| == NP && proc[i].kstack / PAGESIZE < NP && s.owner[proc[i].kstack / PAGESIZE] == KStack(i)
  {
    hide SpaceComplete;
    assert SlotMem(s, rodata, i, proc[i]);
  }

  lemma DirWordThere(k: KState, s: State, i: nat, j: nat)
    requires DirWord(k, s, i, j) != 0
    ensures i < |k.proc| && k.proc[i].pgdir != 0 && j < NSLOT
  {
  }

  lemma TabWordThere(k: KState, s: State, i: nat, v: nat)
    requires TabWord(k, s, i, v) != 0
    ensures i < |k.proc| && k.proc[i].pgdir != 0 && v / NSLOT < NSLOT
  {
    ZeroAbsent();
  }

  lemma HomeOf(proc: seq<Proc>, s: State, rodata: nat, d: nat) returns (i: nat)
    requires MemInv(proc, s, rodata) && d in s.spaces
    ensures i < |proc| && proc[i].pgdir == d * PAGESIZE && proc[i].pgdir != 0
  {
    hide SlotsMem, DirsDistinct, OwnersMem;
    i :| 0 <= i < |proc| && proc[i].pgdir == d * PAGESIZE;
  }

  lemma StackOf(proc: seq<Proc>, s: State, rodata: nat, p: nat)
    requires MemInv(proc, s, rodata) && 0 < p < NP
    ensures |s.owner| == NP && !s.owner[p].Held?
    ensures s.owner[p].KStack? ==> s.owner[p].slot < |proc| && proc[s.owner[p].slot].kstack == p * PAGESIZE
  {
    hide SlotsMem, DirsDistinct, Homes;
  }

  /** A page that the allocator manages and that was not left behind by freevm is in use. */
  lemma AccountedIsUsed(kend: nat, rodata: nat, k: KState, s: State, p: nat) returns (u: Use)
    requires MemInv(k.proc, s, rodata) && |k.proc| == NPROC && kend <= p < NP && Good(kend, s)
    requires |s.owner| == NP && !s.owner[p].Retired?
    ensures Uses(k, s, p, u)
  {
    hide Good, Present, PteAddr, DirWord, TabWord, MemInv, Follow;
    ManagedPage(kend, s, p);
    StackOf(k.proc, s, rodata, p);
    match s.owner[p] {
      case Free(_) =>
        ListedIsFree(kend, s, p);
        u := Listed;
      case KStack(i) =>
        u := Stack(i);
      case Dir(d) =>
        var i := HomeOf(k.proc, s, rodata, d);
        u := Directory(i);
      case Tab(d, j) =>
        var i := HomeOf(k.proc, s, rodata, d);
        ProcSpace(kend, rodata, k, s, i, j);
        u := Table(i, j);
      case Frm(d, v) =>
        var i := HomeOf(k.proc, s, rodata, d);
        ProcPage(kend, rodata, k, s, i, v);
        u := Frame(i, v);
      case _ =>
        assert false;
    }
  }

  /** What the account says of page p is true. */
  lemma ManagedPage(kend: nat, s: State, p: nat)
    requires kend <= p < NP && Good(kend, s)
    ensures |s.owner| == |s.mem| == NP && 0 < p && s.owner[p] != Fixed && Backs(s.owner[p], p, s.spaces)
    ensures s.owner[p].Tab? ==> s.owner[p].slot < NSLOT
    ensures s.owner[p].Frm? ==> s.owner[p].v / NSLOT < NSLOT
  {
    match s.owner[p] {
      case Tab(d, i) =>
        assert Backs(s.owner[p], p, s.spaces) && SpaceOk(s.mem, s.owner, d, s.spaces[d]);
      case Frm(d, v) =>
        assert Backs(s.owner[p], p, s.spaces) && SpaceOk(s.mem, s.owner, d, s.spaces[d]);
      case _ =>
    }
  }

  /** Two uses that are accounted for in the same way are the same. */
  lemma SameUse(k: KState, s: State, rodata: nat, p: nat, u: Use, w: Use)
    requires MemInv(k.proc, s, rodata) && p < |s.owner| && Accounted(k, s, p, u) && Accounted(k, s, p, w)
    ensures u == w
  {
    hide SpaceComplete;
    assert forall i :: 0 <= i < |k.proc| ==> SlotMem(s, rodata, i, k.proc[i]);
  }

  /** The page partition: each page from kernel_end up is on the free list, or is one process's stack, directory,
      page table or user frame, or is a kernel table that freevm left behind; and it is only one of these, once. */
  lemma Partition(kend: nat, rodata: nat, k: KState, s: State)
    requires Steady(kend, rodata, k, s)
    ensures |s.owner| == NP
    ensures forall p :: kend <= p < NP ==> s.owner[p].Retired? || exists u :: Uses(k, s, p, u)
    ensures forall p: nat, u :: Uses(k, s, p, u) ==> kend <= p < NP && !s.owner[p].Retired?
    ensures forall p: nat, u, w :: Uses(k, s, p, u) && Uses(k, s, p, w) ==> u == w
  {
    hide Uses, Accounted, FilesCounted, MemInv, ProcsSane, Good;
    ValidSizes(kend, s);
    MemInvSize(k.proc, s, rodata);
    forall p | kend <= p < NP && !s.owner[p].Retired?
      ensures exists u :: Uses(k, s, p, u)
    {
      var u := AccountedIsUsed(kend, rodata, k, s, p);
    }
    forall p: nat, u | Uses(k, s, p, u)
      ensures kend <= p < NP && !s.owner[p].Retired?
    {
      UseIsAccounted(kend, rodata, k, s, p, u);
      FixedBelow(kend, s, p);
    }
    forall p: nat, u, w | Uses(k, s, p, u) && Uses(k, s, p, w)
      ensures u == w
    {
      UseIsAccounted(kend, rodata, k, s, p, u);
      UseIsAccounted(kend, rodata, k, s, p, w);
      SameUse(k, s, rodata, p, u, w);
    }
  }

  lemma MemInvSize(proc: seq<Proc>, s: State, rodata: nat)
    requires MemInv(proc, s, rodata)
    ensures |proc| == NPROC
  {
  }

  lemma FixedBelow(kend: nat, s: State, p: nat)
    requires Good(kend, s) && p < NP
    ensures |s.owner| == NP && (s.owner[p] == Fixed <==> p < kend)
  {
  }

  /** The loaded directory is always the running process's, so it is never a page that could be given away. */
  lemma LoadedDirectoryOwned(kend: nat, rodata: nat, k: KState, s: State)
    requires Steady(kend, rodata, k, s)
    ensures k.cr3 != 0 && Uses(k, s, k.cr3 / PAGESIZE, Directory(k.procp))
    ensures k.cr3 / PAGESIZE in s.spaces && KernelHalf(s.spaces[k.cr3 / PAGESIZE], rodata)
  {
    hide Good, FilesCounted, KernelHalf, UserRegion;
    assert SlotSane(k.proc[k.procp]) && SlotMem(s, rodata, k.procp, k.proc[k.procp]);
  }

  /** In every live process the user pages are exactly those that hold [KERNEND, KERNEND + size). */
  lemma RegionsContiguous(kend: nat, rodata: nat, k: KState, s: State, i: nat)
    requires Steady(kend, rodata, k, s) && 0 < i < NPROC && k.proc[i].stat != UNUSED
    ensures var d := k.proc[i].pgdir / PAGESIZE;
            && d in s.spaces && KernelHalf(s.spaces[d], rodata)
            && UserRegion(s.spaces[d], UPAGE + CeilPage(k.proc[i].size))
  {
    hide Good, FilesCounted, KernelHalf, UserRegion;
    assert SlotSane(k.proc[i]) && SlotMem(s, rodata, i, k.proc[i]);
  }

  /** Byte by byte: the user memory of a live process is [KERNEND, KERNEND + size), rounded up to whole pages. */
  lemma RegionBytes(kend: nat, rodata: nat, k: KState, s: State, i: nat, c: nat)
    requires Steady(kend, rodata, k, s) && 0 < i < NPROC && k.proc[i].stat != UNUSED
    ensures UserAddr(s, k.proc[i].pgdir / PAGESIZE, c) <==>
              0x4000_0000 <= c && c - c % 0x1000 < 0x4000_0000 + k.proc[i].size
  {
    hide Good, FilesCounted, MemInv, UserRegion, KernelHalf;
    RegionsContiguous(kend, rodata, k, s, i);
    var d, top := k.proc[i].pgdir / PAGESIZE, UPAGE + CeilPage(k.proc[i].size);
    if KERNEND <= c < top * PAGESIZE {
      RegionAddr(kend, s, d, top, c, 1);
    }
    if UserAddr(s, d, c) {
      PageInRegion(s.spaces[d], top, c / PAGESIZE);
    }
    PageBelow(c, k.proc[i].size);
  }

  lemma PageInRegion(sp: Space, top: nat, v: nat)
    requires UserRegion(sp, top) && v in sp.pages && UPAGE <= v
    ensures v < top
  {
  }

  lemma PageBelow(c: nat, size: nat)
    ensures KERNEND <= c ==>
              (c < (UPAGE + CeilPage(size)) * PAGESIZE <==> c - c % PAGESIZE < KERNEND + size)
  {
  }

  // ---- conservation --------------------------------------------------------------------------

  /** The pages of slot i. */
  ghost function ProcPages(k: KState, s: State, i: nat): set<nat>
    requires i < |k.proc|
  {
    set p | 0 <= p < |s.owner| && Belongs(s.owner[p], k.proc[i], i)
  }

  /** How many pages slot i has: its stack, its directory, its page tables, and one page per page of its size. */
  function Holdings(k: KState, s: State, i: nat): nat
    requires i < |k.proc|
  {
    var p := k.proc[i];
    (if p.kstack != 0 then 1 else 0)
    + if p.pgdir != 0 && p.pgdir / PAGESIZE in s.spaces
      then 1 + |s.spaces[p.pgdir / PAGESIZE].tabs| + CeilPage(p.size) else 0
  }

  function AllHoldings(k: KState, s: State, n: nat): nat
    requires n <= |k.proc|
  {
    if n == 0 then 0 else AllHoldings(k, s, n - 1) + Holdings(k, s, n - 1)
  }

  ghost function TablePages(s: State, d: nat): set<nat> {
    set p | 0 <= p < |s.owner| && TableOf(s.owner[p], d)
  }

  ghost function FramePages(s: State, d: nat): set<nat> {
    set p | 0 <= p < |s.owner| && FrameOf(s.owner[p], d)
  }

  /** Different slots of a directory have different tables. */
  lemma TableCount(kend: nat, s: State, d: nat)
    requires Good(kend, s) && d in s.spaces
    ensures |TablePages(s, d)| == |s.spaces[d].tabs|
  {
    hide Good;
    ValidSizes(kend, s);
    var tabs := s.spaces[d].tabs;
    forall j | j in tabs
      ensures tabs[j] in TablePages(s, d) && s.owner[tabs[j]] == Tab(d, j)
    {
      SlotOwner(kend, s, d, j);
    }
    forall p | p in TablePages(s, d)
      ensures p in tabs.Values
    {
      var j := s.owner[p].slot;
      SlotOwner(kend, s, d, j);
      assert tabs[j] == p;
    }
    CountValues(tabs);
    assert tabs.Values == TablePages(s, d);
  }

  /** The frames of the user pages, by page number. */
  function UserFrames(sp: Space): map<nat, nat> {
    map v | v in sp.pages && UPAGE <= v :: sp.pages[v].frame
  }

  lemma FrameCount(kend: nat, s: State, d: nat, n: nat)
    requires d in s.spaces && UserRegion(s.spaces[d], UPAGE + n) && Good(kend, s)
    ensures |FramePages(s, d)| == n
  {
    hide Good;
    ValidSizes(kend, s);
    GoodBacked(kend, s);
    var frames := UserFrames(s.spaces[d]);
    forall v | v in frames
      ensures frames[v] in FramePages(s, d) && s.owner[frames[v]] == Frm(d, v)
    {
      FrameOwner(kend, s, d, v);
    }
    forall p | p in FramePages(s, d)
      ensures p in frames.Values
    {
      assert Backs(s.owner[p], p, s.spaces);
      assert frames[s.owner[p].v] == p;
    }
    CountValues(frames);
    assert frames.Values == FramePages(s, d);
    CountRange(frames.Keys, UPAGE, n);
    assert |frames| == |frames.Keys|;
  }

  /** The only directory page of d is page d. */
  lemma DirectoryOnly(kend: nat, s: State, d: nat)
    requires Good(kend, s) && d in s.spaces
    ensures |s.owner| == NP && d < NP && s.owner[d] == Dir(d) && forall p :: 0 <= p < NP && s.owner[p] == Dir(d) ==>
              p == d
  {
    assert SpaceOk(s.mem, s.owner, d, s.spaces[d]);
    forall p | 0 <= p < NP && s.owner[p] == Dir(d)
      ensures p == d
    {
      assert Backs(s.owner[p], p, s.spaces);
    }
  }

  /** The stack page of slot i, if it has one. */
  ghost function StackPages(s: State, i: nat): set<nat> {
    set p | 0 <= p < |s.owner| && s.owner[p] == KStack(i)
  }

  lemma StackCount(kend: nat, proc: seq<Proc>, s: State, rodata: nat, i: nat)
    requires MemInv(proc, s, rodata) && i < |proc| && Good(kend, s)
    ensures |StackPages(s, i)| == if proc[i].kstack != 0 then 1 else 0
  {
    hide Good, SpaceComplete, DirsDistinct, Homes;
    if proc[i].kstack != 0 {
      SlotStack(proc, s, rodata, i);
      assert StackPages(s, i) == {proc[i].kstack / PAGESIZE};
    } else {
      FirstPageFixed(kend, s);
      NoStack(proc, s, i);
      assert StackPages(s, i) == {};
    }
  }

  /** Slot i owns as many pages as it should. */
  lemma HoldingsCount(kend: nat, rodata: nat, k: KState, s: State, i: nat)
    requires MemInv(k.proc, s, rodata) && i < NPROC == |k.proc| && Good(kend, s)
    ensures |ProcPages(k, s, i)| == Holdings(k, s, i)
  {
    hide Good, MemInv, Belongs, KernelHalf, UserRegion;
    StackCount(kend, k.proc, s, rodata, i);
    var p := k.proc[i];
    if p.pgdir != 0 {
      var d := p.pgdir / PAGESIZE;
      SlotSpace(k.proc, s, rodata, i);
      DirectoryOnly(kend, s, d);
      TableCount(kend, s, d);
      FrameCount(kend, s, d, CeilPage(p.size));
      PartsOfSlot(k, s, i, d);
    } else {
      assert ProcPages(k, s, i) == StackPages(s, i) by {
        NoSpacePages(k, s, i);
      }
    }
  }

  lemma NoSpacePages(k: KState, s: State, i: nat)
    requires i < |k.proc| && k.proc[i].pgdir == 0
    ensures ProcPages(k, s, i) == StackPages(s, i)
  {
  }

  lemma SlotSpace(proc: seq<Proc>, s: State, rodata: nat, i: nat)
    requires MemInv(proc, s, rodata) && i < |proc| && proc[i].pgdir != 0
    ensures var d := proc[i].pgdir / PAGESIZE;
            d in s.spaces && UserRegion(s.spaces[d], UPAGE + CeilPage(proc[i].size))
  {
    assert SlotMem(s, rodata, i, proc[i]);
  }

  lemma PartsOfSlot(k: KState, s: State, i: nat, d: nat)
    requires i < |k.proc| && k.proc[i].pgdir != 0 && d == k.proc[i].pgdir / PAGESIZE
    requires |s.owner| == NP && d < NP && s.owner[d] == Dir(d) && forall p :: 0 <= p < NP && s.owner[p] == Dir(d) ==>
              p == d
    ensures |ProcPages(k, s, i)| == |StackPages(s, i)| + 1 + |TablePages(s, d)| + |FramePages(s, d)|
  {
    var parts := StackPages(s, i) + {d} + TablePages(s, d) + FramePages(s, d);
    assert ProcPages(k, s, i) == parts;
  }

  /** The pages of the first n slots. */
  ghost function PagesBelow(k: KState, s: State, n: nat): set<nat>
    requires n <= |k.proc|
  {
    set p, i | 0 <= i < n && 0 <= p < |s.owner| && Belongs(s.owner[p], k.proc[i], i) :: p
  }

  lemma {:induction false} CountSlots(kend: nat, rodata: nat, k: KState, s: State, n: nat)
    requires MemInv(k.proc, s, rodata) && n <= NPROC == |k.proc| && Good(kend, s)
    ensures |PagesBelow(k, s, n)| == AllHoldings(k, s, n)
  {
    hide Good, MemInv, Holdings, ProcPages, PagesBelow;
    if n > 0 {
      CountSlots(kend, rodata, k, s, n - 1);
      HoldingsCount(kend, rodata, k, s, n - 1);
      SlotsApart(k, s, rodata, n - 1);
      PagesNext(k, s, n - 1);
    } else {
      NoPages(k, s);
    }
  }

  lemma PagesNext(k: KState, s: State, n: nat)
    requires n < |k.proc| && PagesBelow(k, s, n) !! ProcPages(k, s, n)
    ensures |PagesBelow(k, s, n + 1)| == |PagesBelow(k, s, n)| + |ProcPages(k, s, n)|
  {
    hide Belongs;
    assert PagesBelow(k, s, n + 1) == PagesBelow(k, s, n) + ProcPages(k, s, n);
  }

  lemma NoPages(k: KState, s: State)
    ensures PagesBelow(k, s, 0) == {}
  {
  }

  lemma SlotsApart(k: KState, s: State, rodata: nat, n: nat)
    requires MemInv(k.proc, s, rodata) && n < |k.proc|
    ensures PagesBelow(k, s, n) !! ProcPages(k, s, n)
  {
    hide SpaceComplete, OwnersMem, Homes;
    if k.proc[n].pgdir != 0 {
      OtherDirs(k.proc, s, rodata, n);
    }
  }

  /** Conservation: every page from kernel_end up is free, or held by a slot, or one of the kernel tables that
      freevm left behind; no page is missing from this account and none is in it twice. */
  lemma Conserved(kend: nat, rodata: nat, k: KState, s: State)
    requires Steady(kend, rodata, k, s)
    ensures |k.proc| == NPROC && NP - kend == |s.free| + AllHoldings(k, s, NPROC) + |RetiredPages(s)|
  {
    hide Good, MemInv, ProcsSane, FilesCounted, AllHoldings, Belongs;
    ValidSizes(kend, s);
    MemInvSize(k.proc, s, rodata);
    FreeCount(kend, s);
    CountSlots(kend, rodata, k, s, NPROC);
    var managed := FreePages(s) + PagesBelow(k, s, NPROC) + RetiredPages(s);
    forall p: nat
      ensures p in managed <==> kend <= p < NP
    {
      if p < NP {
        FixedBelow(kend, s, p);
        if kend <= p && !s.owner[p].Retired? {
          HeldBySlot(kend, rodata, k, s, p);
        }
      }
      if p in PagesBelow(k, s, NPROC) {
        SlotPageSane(k, s, p);
      }
    }
    CountRange(managed, kend, NP - kend);
    SlotsNotFree(k, s);
  }

  lemma SlotPageSane(k: KState, s: State, p: nat)
    requires |k.proc| == NPROC && p in PagesBelow(k, s, NPROC)
    ensures p < |s.owner| && s.owner[p] != Fixed
  {
  }

  lemma SlotsNotFree(k: KState, s: State)
    requires |k.proc| == NPROC
    ensures FreePages(s) !! PagesBelow(k, s, NPROC) && RetiredPages(s) !! PagesBelow(k, s, NPROC)
    ensures FreePages(s) !! RetiredPages(s)
    ensures |FreePages(s) + PagesBelow(k, s, NPROC) + RetiredPages(s)|
            == |FreePages(s)| + |PagesBelow(k, s, NPROC)| + |RetiredPages(s)|
  {
  }

  lemma SlotHas(k: KState, s: State, p: nat, i: nat)
    requires |k.proc| == NPROC && p < |s.owner| && i < NPROC && Belongs(s.owner[p], k.proc[i], i)
    ensures p in PagesBelow(k, s, NPROC)
  {
  }

  /** A managed page that is neither free nor left behind is some slot's. */
  lemma HeldBySlot(kend: nat, rodata: nat, k: KState, s: State, p: nat)
    requires MemInv(k.proc, s, rodata) && |k.proc| == NPROC && kend <= p < NP && Good(kend, s)
    requires |s.owner| == NP && !s.owner[p].Retired?
    ensures s.owner[p].Free? || p in PagesBelow(k, s, NPROC)
  {
    hide Good, MemInv, Uses, PagesBelow;
    var u := AccountedIsUsed(kend, rodata, k, s, p);
    UseIsAccounted(kend, rodata, k, s, p, u);
    match u {
      case Listed =>
      case Stack(i) => SlotHas(k, s, p, i);
      case Directory(i) => SlotHas(k, s, p, i);
      case Table(i, _) => SlotHas(k, s, p, i);
      case Frame(i, _) => SlotHas(k, s, p, i);
    }
  }
}
