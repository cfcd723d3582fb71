/** kernel/mm/vm.c: page tables, address spaces and copies through them.
    A directory is passed as its physical address; in the specifications its page number names it. */
module Vm {
  import opened Memory
  import opened Paging
  import opened Steps
  import opened Mapping
  import opened Unmapping
  import opened KernelMap
  import opened Growing
  import opened Forking
  import opened Losses
  import opened Allocator

  /** pgdir points at a page directory. */
  ghost predicate IsDir(m: Machine, pgdir: word)
    reads m, m.mem
  {
    pgdir % PAGESIZE == 0 && pgdir / PAGESIZE in m.spaces
  }

  /** pte is a pointer to the entry of page v in the tables of sp, or null if there is no table for it. */
  ghost predicate PointsAt(pte: word, sp: Space, v: nat) {
    && (pte != 0 <==> v / NSLOT in sp.tabs)
    && (pte != 0 ==> pte / PAGESIZE == sp.tabs[v / NSLOT] && pte % PAGESIZE / 4 == v % NSLOT)
  }

  /** The address of entry va in the table at page t. */
  lemma EntryAddress(t: nat, j: nat)
    requires t < NP && j < NSLOT
    ensures (t * PAGESIZE + 4 * j) / PAGESIZE == t && (t * PAGESIZE + 4 * j) % PAGESIZE / 4 == j
  {
  }

  /** The directory word for slot i. */
  lemma DirectoryWord(kend: nat, s: State, d: nat, i: nat)
    requires Good(kend, s) && d in s.spaces && i < NSLOT
    ensures d < NP && s.owner[d] == Dir(d)
    ensures i in s.spaces[d].tabs ==>
              0 < s.spaces[d].tabs[i] < NP && s.mem[d][i] == s.spaces[d].tabs[i] * PAGESIZE + 7
    ensures i !in s.spaces[d].tabs ==> s.mem[d][i] == 0
    ensures Present(s.mem[d][i]) <==> i in s.spaces[d].tabs
  {
    assert SpaceOk(s.mem, s.owner, d, s.spaces[d]);
  }

  method WalkPgdir(m: Machine, pgdir: word, va: word, isalloc: bool) returns (pte: word)
    requires m.Valid() && IsDir(m, pgdir)
    modifies m.mem, m`coremap, m`free, m`owner, m`spaces
    ensures m.Valid() && IsDir(m, pgdir)
    ensures !isalloc ==> m.View() == old(m.View())
    ensures isalloc ==>
              && pgdir / PAGESIZE < NP && old(m.coremap) / PAGESIZE < NP
              && (forall k :: 0 <= k < |old(m.free)| ==> old(m.free)[k] < NP)
              && m.View() == EnsureTable(old(m.View()), pgdir / PAGESIZE, Pdx(va))
    ensures PointsAt(pte, m.spaces[pgdir / PAGESIZE], va / PAGESIZE)
  {
    hide Good, AllocOk, Keeps;
    var d := pgdir / PAGESIZE;
    DirectoryWord(m.kend, m.View(), d, Pdx(va));
    EnsureTableKeeps(m.kend, m.View(), d, Pdx(va));
    var pde := m.mem[d][Pdx(va)];
    if Present(pde) {
      pte := PteAddr(pde);
      assert pte / PAGESIZE == m.spaces[d].tabs[Pdx(va)];
    } else {
      if !isalloc {
        return 0;
      }
      ValidAlloc(m.kend, m.View());
      pte := Kalloc(m, d);
      if pte == 0 {
        return 0;
      }
      ghost var s := m.View();
      m.mem[pte / PAGESIZE] := ZeroPage();
      m.mem[d] := m.mem[d][Pdx(va) := pte + PTE_P + PTE_W + PTE_U];
      m.owner := m.owner[pte / PAGESIZE := Tab(d, Pdx(va))];
      m.spaces := m.spaces[d := m.spaces[d].(tabs := m.spaces[d].tabs[Pdx(va) := pte / PAGESIZE])];
      assert m.View() == InstallTable(s, d, Pdx(va), pte / PAGESIZE);
    }
    EntryAddress(pte / PAGESIZE, Ptx(va));
    pte := pte + 4 * Ptx(va);
  }

  lemma ValidAlloc(kend: nat, s: State)
    requires Good(kend, s)
    ensures AllocOk(kend, s)
    ensures s.free != [] ==> 0 < s.free[|s.free| - 1] < NP && s.owner[s.free[|s.free| - 1]].Free?
  {
    if s.free != [] {
      assert s.owner[s.free[|s.free| - 1]] == Free(|s.free| - 1);
      assert s.owner[0] == Fixed;
    }
  }

  /** One turn of the loop in mappages: find the entry, making a table if needed, and fill it in. */
  method MapOne(m: Machine, pgdir: word, a: word, pa: word, flags: nat) returns (ok: bool)
    requires m.Valid() && IsDir(m, pgdir) && pa % PAGESIZE == 0 && |m.owner| == NP
    requires CanMap(m.View(), pgdir / PAGESIZE, a / PAGESIZE, Entry(pa / PAGESIZE, WithP(flags)))
    modifies m.mem, m`coremap, m`free, m`owner, m`spaces
    ensures ok ==> Stepped(old(m.View()), m.View(), pgdir / PAGESIZE, a / PAGESIZE, Entry(pa / PAGESIZE, WithP(flags)))
    ensures !ok ==>
              m.View() == old(m.View()) && IsDir(m, pgdir) && m.free == [] && Pdx(a) !in m.spaces[pgdir / PAGESIZE].tabs
  {
    hide Good, AllocOk, Keeps;
    ghost var d, v, e := pgdir / PAGESIZE, a / PAGESIZE, Entry(pa / PAGESIZE, WithP(flags));
    MapStepGood(m.kend, m.View(), d, v, e);
    var pte := WalkPgdir(m, pgdir, a, true);
    if pte == 0 {
      return false;
    }
    EntryAbsent(m.kend, m.View(), d, v);
    assert !Present(Load(m.mem, pte)); // else panic("mappages")
    assert PteWord(m.spaces[d].pages[v := e], v) == pa + e.flags;
    Store(m.mem, pte, pa + WithP(flags));
    m.spaces := m.spaces[d := m.spaces[d].(pages := m.spaces[d].pages[v := e])];
    m.owner := if UPAGE <= v then m.owner[pa / PAGESIZE := Frm(d, v)] else m.owner;
    ok := true;
  }

  /** How many pages mappages visits: from the page of va to the page of va + size - 1. */
  function RunLength(va: word, size: word): nat {
    var last := (va + size - 1) % 0x1_0000_0000 / PAGESIZE;
    if va / PAGESIZE <= last then last - va / PAGESIZE + 1 else 0
  }

  /** Map the pages of [va, va + size) to the frames from pa on. Returns false, with k pages of the run
      mapped, when a page table is missing and no page is left for it. */
  method MapPages(m: Machine, pgdir: word, va: word, size: word, pa: word, flags: nat)
    returns (ok: bool, ghost k: nat)
    requires m.Valid() && IsDir(m, pgdir) && pa % PAGESIZE == 0
    requires CanMapRun(m.View(), pgdir / PAGESIZE, va / PAGESIZE, pa / PAGESIZE, flags,
                       RunLength(va, size)) // else panic("mappages")
    modifies m.mem, m`coremap, m`free, m`owner, m`spaces
    ensures m.Valid() && IsDir(m, pgdir)
    ensures Mapped(pgdir / PAGESIZE, old(m.View()), m.View(), va / PAGESIZE, pa / PAGESIZE, flags, k)
    ensures k == 0 ==> m.View() == old(m.View())
    ensures if ok then k == RunLength(va, size)
            else
              && k < RunLength(va, size) && m.free == []
              && (va / PAGESIZE + k) / NSLOT !in m.spaces[pgdir / PAGESIZE].tabs
  {
    hide Good, Mapped, CanMapRun, CanMap, Stepped;
    var a := RoundDown(va);
    var last := RoundDown((va + size - 1) % 0x1_0000_0000);
    var frame := pa;
    ghost var d, v, f, n := pgdir / PAGESIZE, va / PAGESIZE, pa / PAGESIZE, RunLength(va, size);
    ghost var s0 := m.View();
    k := 0;
    ValidSizes(m.kend, s0);
    MappedNone(d, s0, v, f, flags);
    while a <= last
      invariant k <= n && a == (v + k) * PAGESIZE && frame == (f + k) * PAGESIZE
      invariant k < n <==> a <= last
      invariant m.Valid() && IsDir(m, pgdir) && Mapped(d, s0, m.View(), v, f, flags, k)
      invariant k == 0 ==> m.View() == s0
      decreases n - k
    {
      ghost var s := m.View();
      ValidSizes(m.kend, s);
      assert a / PAGESIZE == v + k && frame / PAGESIZE == f + k;
      CanMapNext(s0, s, d, v, f, flags, k, n);
      ok := MapOne(m, pgdir, a, frame, flags);
      if !ok {
        return false, k;
      }
      MappedOneMore(m.kend, s0, s, m.View(), d, v, f, flags, k);
      a, frame, k := a + PAGESIZE, frame + PAGESIZE, k + 1;
    }
    ok := true;
  }

  /** The entry of an unmapped page is 0. */
  lemma EntryAbsent(kend: nat, s: State, d: nat, v: nat)
    requires Good(kend, s) && d in s.spaces && v / NSLOT in s.spaces[d].tabs && v !in s.spaces[d].pages
    ensures s.spaces[d].tabs[v / NSLOT] < NP && s.mem[s.spaces[d].tabs[v / NSLOT]][v % NSLOT] == 0
  {
    assert SpaceOk(s.mem, s.owner, d, s.spaces[d]);
  }

  // ---- taking mappings away ------------------------------------------------------------------

  /** The frame of a mapped page is freed and its entry cleared: one turn of the loop in deallocuvm. */
  method UnmapOne(m: Machine, pgdir: word, pte: word, ghost v: nat)
    requires m.Valid() && IsDir(m, pgdir) && UPAGE <= v && v in m.spaces[pgdir / PAGESIZE].pages
    requires PointsAt(pte, m.spaces[pgdir / PAGESIZE], v) && pte != 0
    modifies m.mem, m`coremap, m`free, m`owner, m`spaces
    ensures m.Valid() && IsDir(m, pgdir)
    ensures m.mem.Length == NP && |old(m.owner)| == NP && old(m.spaces)[pgdir / PAGESIZE].pages[v].frame < NP
    ensures old(m.spaces)[pgdir / PAGESIZE].tabs[v / NSLOT] < NP
    ensures m.View() == UnmapPage(old(m.View()), pgdir / PAGESIZE, v)
  {
    hide Good, AllocOk, Keeps;
    ghost var d, s := pgdir / PAGESIZE, m.View();
    ValidSizes(m.kend, s);
    PteOfPage(m.kend, s, d, v);
    TableOwner(m.kend, s, d, v / NSLOT);
    FrameOwner(m.kend, s, d, v);
    UnmapPageKeeps(m.kend, s, d, v);
    ValidAlloc(m.kend, s);
    var pa := PteAddr(Load(m.mem, pte));
    assert pa / PAGESIZE == s.spaces[d].pages[v].frame && pa != 0; // else panic("deallocuvm")
    Kfree(m, pa);
    Store(m.mem, pte, 0);
    m.spaces := m.spaces[d := m.spaces[d].(pages := m.spaces[d].pages - {v})];
    assert m.View() == UnmapPage(s, d, v);
  }

  /** Unmap and free the pages of [RoundUp(newVa), oldVa); a directory slot without a table is skipped. */
  method DeallocUvm(m: Machine, pgdir: word, oldVa: word, newVa: word) returns (va: word)
    requires m.Valid() && IsDir(m, pgdir)
    requires newVa < oldVa ==> KERNEND <= newVa && oldVa <= USEREND // else panic("kfree") or no end
    modifies m.mem, m`coremap, m`free, m`owner, m`spaces
    ensures m.Valid() && IsDir(m, pgdir)
    ensures newVa >= oldVa ==> m.View() == old(m.View()) && va == oldVa
    ensures newVa < oldVa ==>
              && va == newVa
              && Unmapped(pgdir / PAGESIZE, old(m.View()), m.View(), RoundUp(newVa) / PAGESIZE, CeilPage(oldVa))
  {
    hide Good, Unmapped, Backed;
    if newVa >= oldVa {
      return oldVa;
    }
    ghost var d, s0, lo, hi := pgdir / PAGESIZE, m.View(), RoundUp(newVa) / PAGESIZE, CeilPage(oldVa);
    ValidSizes(m.kend, s0);
    GoodBacked(m.kend, s0);
    UnmappedNone(d, s0, lo);
    RoundUpIsCeil(newVa);
    var a := RoundUp(newVa);
    ghost var v := lo;
    while a < oldVa
      invariant a == v * PAGESIZE && UPAGE <= lo <= v
      invariant v < hi <==> a < oldVa
      invariant m.Valid() && IsDir(m, pgdir) && Unmapped(d, s0, m.View(), lo, Min(v, hi))
      decreases 0x1_0000_0000 - a
    {
      ghost var s := m.View();
      ValidSizes(m.kend, s);
      SkipAddress(a, v);
      var pte := WalkPgdir(m, pgdir, a, false);
      if pte == 0 {
        a := PgAddr(Pdx(a) + 1, 0, 0) - PAGESIZE;
        NoTableNoPages(m.kend, s, d, v);
        UnmappedSkip(d, s0, s, lo, v, Min((v / NSLOT + 1) * NSLOT, hi));
        v := (v / NSLOT + 1) * NSLOT - 1;
      } else {
        PteOfPage(m.kend, s, d, v);
        if Present(Load(m.mem, pte)) {
          UnmappedOneMore(m.kend, d, s0, s, lo, v);
          UnmapOne(m, pgdir, pte, v);
        } else {
          UnmappedSkip(d, s0, s, lo, v, v + 1);
        }
      }
      a, v := a + PAGESIZE, v + 1;
    }
    va := newVa;
  }

  /** PDX, PTX and the offset take an address apart, and PGADDR puts it together again. */
  lemma AddressParts(va: word)
    ensures Pdx(va) < NSLOT && Ptx(va) < NSLOT && PgAddr(Pdx(va), Ptx(va), va % PAGESIZE) == va
    ensures Pdx(va) == va / PAGESIZE / NSLOT && Ptx(va) == va / PAGESIZE % NSLOT
  {
    var v := va / PAGESIZE;
    assert va == PAGESIZE * v + va % PAGESIZE && v == NSLOT * (v / NSLOT) + v % NSLOT;
  }

  lemma PartsOfAddress(d: nat, t: nat, o: nat)
    requires d < NSLOT && t < NSLOT && o < PAGESIZE
    ensures Pdx(PgAddr(d, t, o)) == d && Ptx(PgAddr(d, t, o)) == t && PgAddr(d, t, o) % PAGESIZE == o
  {
    var va := PgAddr(d, t, o);
    assert va == PAGESIZE * (NSLOT * d + t) + o;
    assert va / PAGESIZE == NSLOT * d + t;
    assert (NSLOT * d + t) / NSLOT == d && (NSLOT * d + t) % NSLOT == t;
  }

  /** Skipping to the next directory slot moves forward exactly below the last one: from there on the 32-bit
      address wraps to 0, which is why deallocuvm must not be asked to go beyond USEREND. */
  lemma SkipAdvances(va: word)
    ensures PgAddr(Pdx(va) + 1, 0, 0) > va <==> va < USEREND
    ensures va >= USEREND ==> PgAddr(Pdx(va) + 1, 0, 0) == 0
  {
  }

  /** PGADDR(PDX(va) + 1, 0, 0) is the first page of the next directory slot. */
  lemma SkipAddress(a: word, v: nat)
    requires a == v * PAGESIZE && v < UTOP
    ensures a / PAGESIZE == v && Pdx(a) == v / NSLOT
    ensures PgAddr(Pdx(a) + 1, 0, 0) == (v / NSLOT + 1) * NSLOT * PAGESIZE
    ensures v < (v / NSLOT + 1) * NSLOT
  {
  }

  lemma RoundUpIsCeil(a: word)
    requires a <= USEREND
    ensures RoundUp(a) == CeilPage(a) * PAGESIZE && RoundUp(a) / PAGESIZE == CeilPage(a)
  {
  }

  function CeilPage(a: nat): nat { (a + PAGESIZE - 1) / PAGESIZE }

  function Min(a: nat, b: nat): nat { if a < b then a else b }

  lemma GoodBacked(kend: nat, s: State)
    requires Good(kend, s)
    ensures |s.owner| == NP && Backed(s.owner, s.spaces)
  {
  }

  lemma NoTableNoPages(kend: nat, s: State, d: nat, v: nat)
    requires Good(kend, s) && d in s.spaces && v / NSLOT !in s.spaces[d].tabs
    ensures forall u :: v / NSLOT * NSLOT <= u < (v / NSLOT + 1) * NSLOT ==> u !in s.spaces[d].pages
  {
    assert SpaceOk(s.mem, s.owner, d, s.spaces[d]);
  }

  /** What the entry of a page says. */
  lemma PteOfPage(kend: nat, s: State, d: nat, v: nat)
    requires Good(kend, s) && d in s.spaces && v / NSLOT in s.spaces[d].tabs
    ensures s.spaces[d].tabs[v / NSLOT] < NP
    ensures var pte := s.mem[s.spaces[d].tabs[v / NSLOT]][v % NSLOT];
            && (Present(pte) <==> v in s.spaces[d].pages)
            && (v in s.spaces[d].pages ==> PteAddr(pte) == s.spaces[d].pages[v].frame * PAGESIZE
                                           && PteFlags(pte) == s.spaces[d].pages[v].flags)
  {
    hide Present, PteAddr, PteFlags, Encode;
    if v in s.spaces[d].pages {
      PageSane(kend, s, d, v);
      EncodeDecode(s.spaces[d].pages[v]);
    }
    ZeroAbsent();
    assert SpaceOk(s.mem, s.owner, d, s.spaces[d]);
  }

  /** PTE_ADDR and PTE_FLAGS undo pa | flags | P. */
  lemma EncodeDecode(e: Entry)
    requires EntryOk(e)
    ensures Present(Encode(e)) && PteAddr(Encode(e)) == e.frame * PAGESIZE && PteFlags(Encode(e)) == e.flags
  {
    PageParts(e.frame, e.flags);
    StaysOdd(e.frame, e.flags);
  }

  lemma PageParts(f: nat, r: nat)
    requires r < PAGESIZE
    ensures (f * PAGESIZE + r) / PAGESIZE == f && (f * PAGESIZE + r) % PAGESIZE == r
  {
  }

  lemma StaysOdd(f: nat, r: nat)
    ensures (f * PAGESIZE + r) % 2 == r % 2
  {
    EvenPlus(2048 * f, r);
    assert f * PAGESIZE == 2 * (2048 * f);
  }

  lemma EvenPlus(h: nat, x: nat)
    ensures (2 * h + x) % 2 == x % 2
  {
  }

  lemma ZeroAbsent()
    ensures !Present(0)
  {
  }

  /** Give back an address space: all but the kernel page tables, which nobody frees. */
  method FreeVm(m: Machine, pgdir: word)
    requires m.Valid() && IsDir(m, pgdir) // else panic("freevm: no pgdir")
    modifies m.mem, m`coremap, m`free, m`owner, m`spaces
    ensures m.Valid() && Dismantled(pgdir / PAGESIZE, old(m.View()), m.View())
    ensures Keeps(pgdir / PAGESIZE, old(m.View()), m.View())
  {
    hide Good, AllocOk, Unmapped, Dismantled, Dismantling, Keeps, DropSpace;
    ghost var d, s0 := pgdir / PAGESIZE, m.View();
    var _ := DeallocUvm(m, pgdir, USEREND, KERNEND);
    ghost var s1 := m.View();
    OnlyKernelLeft(m.kend, d, s0, s1);
    DismantlingStart(m.kend, d, s1);
    ValidSizes(m.kend, s1);
    m.owner, m.spaces := DropSpace(s1, d).owner, DropSpace(s1, d).spaces;
    var i := USLOT;
    while i < NSLOT
      invariant USLOT <= i <= NSLOT
      invariant m.Valid() && Dismantling(d, s1, m.View(), i)
    {
      ghost var s := m.View();
      ValidSizes(m.kend, s);
      SlotWord(m.kend, d, s1, s, i);
      DismantlingNext(m.kend, d, s1, s, i);
      if Present(m.mem[pgdir / PAGESIZE][i]) {
        ValidAlloc(m.kend, s);
        Kfree(m, PteAddr(m.mem[pgdir / PAGESIZE][i]));
      }
      i := i + 1;
    }
    DismantlingEnd(m.kend, d, s1, m.View());
    ValidAlloc(m.kend, m.View());
    Kfree(m, pgdir);
    UnmappedThenDismantled(d, s0, s1, m.View(), m.kend);
  }

  /** While the directory is in hand its words still say which tables there were. */
  lemma SlotWord(kend: nat, d: nat, s1: State, s: State, i: nat)
    requires Good(kend, s1) && d in s1.spaces && Dismantling(d, s1, s, i) && i < NSLOT
    ensures d < NP && (Present(s.mem[d][i]) <==> i in s1.spaces[d].tabs)
    ensures i in s1.spaces[d].tabs ==> PteAddr(s.mem[d][i]) == s1.spaces[d].tabs[i] * PAGESIZE
  {
    DirectoryWord(kend, s1, d, i);
  }

  // ---- new address spaces --------------------------------------------------------------------

  /** A cleared page as an empty directory; 0 if there is no page. */
  method NewDirectory(m: Machine) returns (pgdir: word)
    requires m.Valid()
    modifies m.mem, m`coremap, m`free, m`owner, m`spaces
    ensures m.Valid()
    ensures pgdir == 0 ==> m.free == [] && m.View() == old(m.View())
    ensures pgdir != 0 ==> IsDir(m, pgdir) && Building(old(m.View()), m.View(), pgdir / PAGESIZE, m.rodata, 0)
  {
    hide Good, AllocOk, Building, NewDir;
    ValidAlloc(m.kend, m.View());
    ValidSizes(m.kend, m.View());
    if m.free != [] {
      BuildingStart(m.kend, m.View(), m.rodata);
    }
    pgdir := Kalloc(m, if m.free == [] then 0 else m.free[|m.free| - 1]);
    if pgdir != 0 {
      ghost var d := pgdir / PAGESIZE;
      NewDirIs(m.View(), d);
      m.mem[pgdir / PAGESIZE] := ZeroPage();
      m.owner, m.spaces := m.owner[d := Dir(d)], m.spaces[d := EmptySpace];
    }
  }

  /** A directory with the kernel half filled in and user space empty. */
  method SetupKvm(m: Machine) returns (pgdir: word)
    requires m.Valid()
    modifies m.mem, m`coremap, m`free, m`owner, m`spaces
    ensures m.Valid()
    ensures pgdir != 0 <==> |old(m.free)| >= KTABS + 1
    ensures pgdir != 0 ==>
              && IsDir(m, pgdir) && Building(old(m.View()), m.View(), pgdir / PAGESIZE, m.rodata, NP)
              && |m.free| == |old(m.free)| - (KTABS + 1)
    ensures pgdir == 0 ==>
              LeftBehind(old(m.View()), m.View()) && |m.free| == AfterFailure(|old(m.free)|)
              && m.spaces == old(m.spaces)
  {
    hide Good, Mapped, CanMapRun, Building, Dismantled, Keeps, KMapAt, KFlags, LeftBehind;
    ghost var s0 := m.View();
    ValidSizes(m.kend, s0);
    NothingLeftBehind(s0);
    pgdir := NewDirectory(m);
    if pgdir == 0 {
      return 0;
    }
    ghost var d := pgdir / PAGESIZE;
    var i := 0;
    while i < NKMAP
      invariant i <= NKMAP && m.Valid() && IsDir(m, pgdir) && Building(s0, m.View(), d, m.rodata, Bound(m.rodata, i))
    {
      var kmap := KMapAt(m.rodata, i);
      ghost var s, n := m.View(), Bound(m.rodata, i);
      ValidSizes(m.kend, s);
      RegionLength(m.rodata, i);
      RegionFits(s0, s, d, m.rodata, n, Bound(m.rodata, i + 1), kmap.flags);
      var ok, k := MapPages(m, pgdir, kmap.start, kmap.end - kmap.start, kmap.start, kmap.flags);
      BuildingGrows(m.kend, s0, s, m.View(), d, m.rodata, n, kmap.flags, k);
      if !ok {
        BuildingStuck(s0, m.View(), d, m.rodata, n + k);
        ghost var t := m.View();
        FreeVm(m, pgdir);
        BuildingUndone(m.kend, s0, t, m.View(), d, m.rodata, n + k);
        UnfinishedCount(m.kend, s0, t, m.View(), d, m.rodata, n + k);
        return 0;
      }
      i := i + 1;
    }
    BuildingDone(s0, m.View(), d, m.rodata);
  }

  lemma NewDirIs(s: State, d: nat)
    requires |s.mem| == NP && |s.owner| == NP && d < NP
    ensures NewDir(s, d) == s.(mem := s.mem[d := ZeroPage()], owner := s.owner[d := Dir(d)],
        spaces := s.spaces[d := EmptySpace])
  {
  }

  lemma RegionLength(rodata: nat, i: nat)
    requires i < NKMAP && EXTPAGE < rodata <= NP
    ensures var kmap := KMapAt(rodata, i);
            && kmap.start % PAGESIZE == 0 && kmap.start <= kmap.end && kmap.start / PAGESIZE == Bound(rodata, i)
            && kmap.flags < PAGESIZE
            && RunLength(kmap.start, kmap.end - kmap.start) == Bound(rodata, i + 1) - Bound(rodata, i)
    ensures forall v :: Bound(rodata, i) <= v < Bound(rodata, i + 1) ==>
              WithP(KMapAt(rodata, i).flags) == KFlags(rodata, v)
    ensures Bound(rodata, i) <= Bound(rodata, i + 1) <= NP
  {
  }

  // ---- growing user space --------------------------------------------------------------------

  const CLEAR_PAGE := Image(ZeroPage(), PTE_P + PTE_W + PTE_U)

  function ClearPages(n: nat): seq<Image> { seq(n, _ => CLEAR_PAGE) }

  /** kalloc, fill, mappages of one page: the common turn of the loops of allocuvm and copyuvm.
      If the entry cannot be made the page stays in the caller's hands and is returned in pa. */
  method AddPage(m: Machine, pgdir: word, va: word, data: Page, flags: nat, ghost s0: State, ghost v: nat,
      ghost images: seq<Image>)
    returns (ok: bool, pa: word)
    requires m.Valid() && IsDir(m, pgdir) && Grown(pgdir / PAGESIZE, s0, m.View(), v, images)
    requires UPAGE <= v && va == (v + |images|) * PAGESIZE && va < USEREND && flags < PAGESIZE
    requires v + |images| !in m.spaces[pgdir / PAGESIZE].pages
    modifies m.mem, m`coremap, m`free, m`owner, m`spaces
    ensures m.Valid() && IsDir(m, pgdir)
    ensures ok ==> Grown(pgdir / PAGESIZE, s0, m.View(), v, images + [Image(data, WithP(flags))])
    ensures !ok && pa == 0 ==> m.View() == old(m.View()) && m.free == []
    ensures !ok && pa != 0 ==>
              && InHand(old(m.View()), m.View(), pgdir / PAGESIZE, pa, data)
              && Pdx(va) !in old(m.spaces)[pgdir / PAGESIZE].tabs
  {
    hide Good, AllocOk, Grown, Keeps, Mapped;
    ghost var d, s := pgdir / PAGESIZE, m.View();
    ValidAlloc(m.kend, s);
    ValidSizes(m.kend, s);
    pa := Kalloc(m, d);
    if pa == 0 {
      return false, 0;
    }
    TakeAndFillKeeps(m.kend, s, d, data);
    m.mem[pa / PAGESIZE] := data;
    ghost var r := m.View();
    assert RunLength(va, PAGESIZE) == 1;
    ghost var k;
    ok, k := MapPages(m, pgdir, va, PAGESIZE, pa, flags);
    if ok {
      GrownFrames(m.kend, d, s0, s, v, images);
      GrownNext(d, s0, s, r, m.View(), v, images, data, flags);
    }
  }

  /** The frames of a grown region belong to its pages. */
  lemma GrownFrames(kend: nat, d: nat, s0: State, s: State, v: nat, images: seq<Image>)
    requires Good(kend, s) && Grown(d, s0, s, v, images) && UPAGE <= v
    ensures forall u :: v <= u < v + |images| ==>
              u in s.spaces[d].pages && s.spaces[d].pages[u].frame < NP
              && s.owner[s.spaces[d].pages[u].frame] == Frm(d, u)
  {
    forall u | v <= u < v + |images|
      ensures u in s.spaces[d].pages && s.spaces[d].pages[u].frame < NP
      ensures s.owner[s.spaces[d].pages[u].frame] == Frm(d, u)
    {
      FrameOwner(kend, s, d, u);
    }
  }

  /** What allocuvm does when page k cannot be had (pa is 0) or cannot be mapped: unmap what it has mapped, and free
      the page it has in hand. */
  method UndoAlloc(m: Machine, pgdir: word, oldVa: word, newVa: word, pa: word, ghost s0: State, ghost s: State,
                   ghost k: nat)
    requires m.Valid() && IsDir(m, pgdir) && KERNEND <= oldVa && oldVa <= newVa < USEREND
    requires k < CeilPage(newVa) - CeilPage(oldVa)
    requires Grown(pgdir / PAGESIZE, s0, s, CeilPage(oldVa), ClearPages(k))
    requires Vacant(pgdir / PAGESIZE, s0, CeilPage(oldVa), CeilPage(newVa) - CeilPage(oldVa))
    requires if pa == 0 then m.View() == s else InHand(s, m.View(), pgdir / PAGESIZE, pa, ZeroPage())
    modifies m.mem, m`coremap, m`free, m`owner, m`spaces
    ensures m.Valid() && IsDir(m, pgdir) && RolledBack(pgdir / PAGESIZE, s0, m.View(), CeilPage(oldVa), k)
  {
    hide Good, AllocOk, Grown, Unmapped, RolledBack, Vacant, TakeAndFill;
    ghost var d, v, n, r := pgdir / PAGESIZE, CeilPage(oldVa), CeilPage(newVa) - CeilPage(oldVa), m.View();
    RoundUpIsCeil(oldVa);
    var _ := DeallocUvm(m, pgdir, newVa, oldVa);
    if pa == 0 {
      GrownUndone(d, s0, s, m.View(), v, ClearPages(k), n);
    } else {
      GrownUndoneHeld(d, s0, s, r, m.View(), v, ClearPages(k), n, ZeroPage());
      ValidAlloc(m.kend, m.View());
      PushFreeKeeps(m.kend, m.View(), d, pa / PAGESIZE);
      Kfree(m, pa);
    }
  }

  /** Page pa, the last free one, has been taken from s and filled, and is in hand. */
  ghost predicate InHand(s: State, r: State, d: nat, pa: word, data: Page) {
    && |s.mem| == NP && |s.owner| == NP && s.head / PAGESIZE < NP && |s.free| == 1 && 0 < s.free[0] < NP
    && pa == s.free[0] * PAGESIZE && r == TakeAndFill(s, d, data) && s.owner[s.free[0]].Free?
  }

  /** Extend user space from oldVa to newVa with cleared pages, all of them or none. Returns the new end, or 0. */
  method AllocUvm(m: Machine, pgdir: word, oldVa: word, newVa: word) returns (va: word)
    requires m.Valid() && IsDir(m, pgdir)
    requires oldVa <= newVa < USEREND ==>
               && KERNEND <= oldVa
               && forall u :: CeilPage(oldVa) <= u < CeilPage(newVa) ==>
                    u !in m.spaces[pgdir / PAGESIZE].pages // else panic("mappages")
    modifies m.mem, m`coremap, m`free, m`owner, m`spaces
    ensures m.Valid() && IsDir(m, pgdir)
    ensures newVa >= USEREND ==> va == 0 && m.View() == old(m.View())
    ensures newVa < USEREND && newVa < oldVa ==> va == oldVa && m.View() == old(m.View())
    ensures oldVa <= newVa < USEREND ==>
              var d, v, n := pgdir / PAGESIZE, CeilPage(oldVa), CeilPage(newVa) - CeilPage(oldVa);
              && va == (if |old(m.free)| >= Cost(old(m.spaces)[d].tabs, v, n) then newVa else 0)
              && (va != 0 ==> Grown(d, old(m.View()), m.View(), v, ClearPages(n)))
              && (va == 0 ==> exists k :: 0 <= k < n && RolledBack(d, old(m.View()), m.View(), v, k))
  {
    hide Good, AllocOk, Grown, Keeps, RolledBack, Vacant, Cost, TakeAndFill;
    if newVa >= USEREND {
      return 0;
    }
    if newVa < oldVa {
      return oldVa;
    }
    ghost var d, s0, v, n := pgdir / PAGESIZE, m.View(), CeilPage(oldVa), CeilPage(newVa) - CeilPage(oldVa);
    ghost var k := 0;
    VacantOwners(m.kend, d, s0, v, n);
    GrownNone(m.kend, d, s0, v);
    RoundUpIsCeil(oldVa);
    assert ClearPages(0) == [];
    var a := RoundUp(oldVa);
    while a < newVa
      invariant k <= n && a == (v + k) * PAGESIZE && (k < n <==> a < newVa)
      invariant m.Valid() && IsDir(m, pgdir) && Grown(d, s0, m.View(), v, ClearPages(k))
      decreases n - k
    {
      ghost var s := m.View();
      GrownPages(d, s0, s, v, ClearPages(k), n);
      var ok, pa := AddPage(m, pgdir, a, ZeroPage(), PTE_W + PTE_U, s0, v, ClearPages(k));
      if !ok {
        AllocStuck(d, s0, s, v, k, n, pa);
        UndoAlloc(m, pgdir, oldVa, newVa, pa, s0, s, k);
        return 0;
      }
      assert ClearPages(k) + [CLEAR_PAGE] == ClearPages(k + 1);
      a, k := a + PAGESIZE, k + 1;
    }
    GrownCost(d, s0, m.View(), v, ClearPages(n));
    va := newVa;
  }

  /** allocuvm only gives up when there are too few pages for the whole request. */
  lemma AllocStuck(d: nat, s0: State, s: State, v: nat, k: nat, n: nat, pa: word)
    requires Grown(d, s0, s, v, ClearPages(k)) && k < n
    requires if pa == 0 then s.free == [] else |s.free| == 1 && (v + k) / NSLOT !in s.spaces[d].tabs
    ensures |s0.free| < Cost(s0.spaces[d].tabs, v, n)
  {
    hide Grown, Cost;
    if pa == 0 {
      OutOfFrames(d, s0, s, v, ClearPages(k), n);
    } else {
      OutOfTables(d, s0, s, v, ClearPages(k), n);
    }
  }

  lemma GrownPages(d: nat, s0: State, s: State, v: nat, images: seq<Image>, n: nat)
    requires Grown(d, s0, s, v, images) && Vacant(d, s0, v, n)
    ensures forall u :: v + |images| <= u < v + n ==> u !in s.spaces[d].pages
    ensures d in s.spaces && d in s0.spaces
  {
  }

  // ---- copying user space --------------------------------------------------------------------

  /** copyuvm under way: the first k user pages of d have been copied to the new address space e. */
  ghost predicate Copying(m: Machine, s0: State, s1: State, d: nat, e: nat, n: nat, k: nat)
    reads m, m.mem
  {
    && m.Valid() && Good(m.kend, s0) && UserPagesThere(s0, d, n) && Building(s0, s1, e, m.rodata, NP) && k <= n
    && d != e
    && d in m.spaces && GivenUp(s0, m.View(), e) && Grown(e, s1, m.View(), UPAGE, ImagesOf(s0, d, n)[..k])
  }

  /** One turn of the loop in copyuvm. */
  method CopyPage(m: Machine, pgdir: word, newdir: word, va: word,
                  ghost s0: State, ghost s1: State, ghost n: nat, ghost k: nat)
    returns (ok: bool, mem: word)
    requires IsDir(m, pgdir) && IsDir(m, newdir) && Copying(m, s0, s1, pgdir / PAGESIZE, newdir / PAGESIZE, n, k)
    requires k < n && va == (UPAGE + k) * PAGESIZE && va < USEREND
    modifies m.mem, m`coremap, m`free, m`owner, m`spaces
    ensures m.Valid() && IsDir(m, newdir)
    ensures ok ==> Copying(m, s0, s1, pgdir / PAGESIZE, newdir / PAGESIZE, n, k + 1)
    ensures !ok ==> |s0.free| < ForkCost(n)
    ensures !ok && mem == 0 ==> m.View() == old(m.View())
    ensures !ok && mem != 0 ==> InHandFor(m.kend, s0, m.View(), newdir / PAGESIZE, mem)
  {
    hide Good, AllocOk, Grown, Building, UserPagesThere, GivenUp, ForkCost, Keeps, InHand, InHandFor;
    ghost var d, e, s, images := pgdir / PAGESIZE, newdir / PAGESIZE, m.View(), ImagesOf(s0, pgdir / PAGESIZE, n);
    ValidSizes(m.kend, s);
    CopySource(m.kend, s0, s, d, e, n, k);
    CopyTarget(s0, s1, s, e, m.rodata, images[..k]);
    var pte := WalkPgdir(m, pgdir, va, false);
    PteOfPage(m.kend, s, d, UPAGE + k);
    assert pte != 0 && Present(Load(m.mem, pte)); // else panic("copyuvm: pte should exist"), panic("page not present")
    var pa, flags := PteAddr(Load(m.mem, pte)), PteFlags(Load(m.mem, pte));
    ghost var data := m.mem[pa / PAGESIZE];
    assert images[k] == Image(data, WithP(flags));
    ok, mem := AddPage(m, newdir, va, m.mem[pa / PAGESIZE], flags, s1, UPAGE, images[..k]);
    if ok {
      assert images[..k] + [images[k]] == images[..k + 1];
      CopyGoesOn(m.kend, s0, s1, s, m.View(), d, e, m.rodata, images[..k + 1]);
    } else {
      CopyStuck(s0, s1, s, m.View(), e, m.rodata, n, k, images[..k], mem, data);
      if mem != 0 {
        StillInHand(m.kend, s0, s, m.View(), e, mem, data);
      }
    }
  }

  /** Page mem is in the hands of copyuvm; once it is freed the new space can be given up. */
  ghost predicate InHandFor(kend: nat, s0: State, s: State, e: nat, mem: word) {
    && mem % PAGESIZE == 0 && kend * PAGESIZE <= mem < MEMSIZE && |s.mem| == NP && |s.owner| == NP
    && s.owner[mem / PAGESIZE] == Held(e)
    && Good(kend, PushFree(s, mem / PAGESIZE)) && GivenUp(s0, PushFree(s, mem / PAGESIZE), e)
  }

  lemma StillInHand(kend: nat, s0: State, s: State, r: State, e: nat, mem: word, data: Page)
    requires GivenUp(s0, s, e) && InHand(s, r, e, mem, data) && Good(kend, s)
    ensures InHandFor(kend, s0, r, e, mem)
  {
    hide Good, OnlyInto;
    TakeAndReturn(e, s0, s, data);
    TakeAndFillKeeps(kend, s, e, data);
    PushFreeKeeps(kend, r, e, mem / PAGESIZE);
  }

  /** The page is copied; the new space can still be given up. */
  lemma CopyGoesOn(kend: nat, s0: State, s1: State, s: State, t: State, d: nat, e: nat, rodata: nat, images: seq<Image>)
    requires GivenUp(s0, s, e) && Building(s0, s1, e, rodata, NP) && Grown(e, s1, t, UPAGE, images) && d != e
    requires d in s.spaces
    requires Good(kend, s0)
    ensures GivenUp(s0, t, e) && d in t.spaces
  {
    hide Good, OnlyInto, Grown;
    BuildingIntoOnly(s0, s1, e, rodata, NP);
    BuildingFacts(s0, s1, e, rodata, 0);
    GrownStill(kend, s0, s1, t, e, rodata, images);
  }

  /** A copy of the address space of `size` bytes of user space; 0 if there are not enough pages. */
  method CopyUvm(m: Machine, pgdir: word, size: word) returns (newdir: word)
    requires m.Valid() && IsDir(m, pgdir) && KERNEND + size <= USEREND
    requires UserPagesThere(m.View(), pgdir / PAGESIZE, CeilPage(size)) // else panic("copyuvm: pte should exist")
    modifies m.mem, m`coremap, m`free, m`owner, m`spaces
    ensures m.Valid() && IsDir(m, pgdir)
    ensures newdir != 0 <==> |old(m.free)| >= ForkCost(CeilPage(size))
    ensures newdir != 0 ==>
              && IsDir(m, newdir) && |m.free| == |old(m.free)| - ForkCost(CeilPage(size))
              && CopyOf(old(m.View()), m.View(), pgdir / PAGESIZE, newdir / PAGESIZE, m.rodata, CeilPage(size))
    ensures newdir == 0 ==> LeftBehind(old(m.View()), m.View()) && |m.free| == AfterFailure(|old(m.free)|)
  {
    hide Good, AllocOk, Grown, Building, Dismantled, LeftBehind, UserPagesThere, CopyOf, GivenUp, CeilDiv, InHandFor;
    newdir := SetupKvm(m);
    if newdir == 0 {
      return 0;
    }
    ghost var d, e, s0, s1, n := pgdir / PAGESIZE, newdir / PAGESIZE, old(m.View()), m.View(), CeilPage(size);
    BuiltKernelTabs(s0, s1, e, m.rodata);
    BuildingFacts(s0, s1, e, m.rodata, n);
    GrownNone(m.kend, e, s1, UPAGE);
    ghost var k := 0;
    var va := KERNEND;
    while va < KERNEND + size
      invariant k <= n && va == (UPAGE + k) * PAGESIZE && (k < n <==> va < KERNEND + size)
      invariant IsDir(m, pgdir) && IsDir(m, newdir) && Copying(m, s0, s1, d, e, n, k)
      decreases n - k
    {
      var ok, mem := CopyPage(m, pgdir, newdir, va, s0, s1, n, k);
      if !ok {
        DropCopy(m, newdir, mem, s0);
        return 0;
      }
      va, k := va + PAGESIZE, k + 1;
    }
    assert ImagesOf(s0, d, n)[..n] == ImagesOf(s0, d, n);
    CopyDone(m.kend, s0, s1, m.View(), d, e, m.rodata, n);
    CopyCost(s0, s1, m.View(), e, m.rodata, ImagesOf(s0, d, n));
  }

  /** The error path of copyuvm once it has a directory. */
  method DropCopy(m: Machine, newdir: word, mem: word, ghost s0: State)
    requires m.Valid() && IsDir(m, newdir) && Good(m.kend, s0) && |s0.free| >= KTABS + 1
    requires if mem == 0 then GivenUp(s0, m.View(), newdir / PAGESIZE)
             else InHandFor(m.kend, s0, m.View(), newdir / PAGESIZE, mem)
    modifies m.mem, m`coremap, m`free, m`owner, m`spaces
    ensures m.Valid() && m.spaces == s0.spaces && LeftBehind(s0, m.View()) && |m.free| == AfterFailure(|s0.free|)
  {
    hide Good, AllocOk, Dismantled, LeftBehind, GivenUp;
    if mem != 0 {
      ValidAlloc(m.kend, m.View());
      Kfree(m, mem);
    }
    ghost var t := m.View();
    FreeVm(m, newdir);
    GivenUpCount(m.kend, s0, t, m.View(), newdir / PAGESIZE);
  }

  lemma BuildingFacts(s0: State, s: State, e: nat, rodata: nat, n: nat)
    requires Building(s0, s, e, rodata, NP)
    ensures e !in s0.spaces && e in s.spaces && s.spaces == s0.spaces[e := s.spaces[e]]
    ensures Cost(s.spaces[e].tabs, UPAGE, n) == n + CeilDiv(n, NSLOT)
    ensures forall v :: UPAGE <= v ==> v !in s.spaces[e].pages
  {
    FreshCost(s.spaces[e].tabs, n);
  }

  /** Page k of the parent is mapped, and holds what it held when the copy began. */
  ghost predicate SourceStays(s0: State, s: State, d: nat, n: nat, k: nat) {
    && UserPagesThere(s0, d, n) && k < n && d in s.spaces && UPAGE + k in s.spaces[d].pages
        && (UPAGE + k) / NSLOT in s.spaces[d].tabs
    && s.spaces[d].pages[UPAGE + k].frame < |s.mem| && EntryOk(s.spaces[d].pages[UPAGE + k])
    && ImagesOf(s0, d, n)[k] == ImageOf(s, d, UPAGE + k)
  }

  /** Page k of the source is still what it was when the copy began. */
  lemma CopySource(kend: nat, s0: State, s: State, d: nat, e: nat, n: nat, k: nat)
    requires UserPagesThere(s0, d, n) && k < n && d != e && GivenUp(s0, s, e) && Good(kend, s0) && Good(kend, s)
    ensures SourceStays(s0, s, d, n, k)
  {
    hide Good;
    FrameOwner(kend, s0, d, UPAGE + k);
    PageSane(kend, s, d, UPAGE + k);
    var f := s0.spaces[d].pages[UPAGE + k].frame;
    assert s.owner[f] == Frm(d, UPAGE + k) && s.mem[f] == s0.mem[f];
    assert s.spaces[d] == s0.spaces[d];
    assert ImagesOf(s0, d, n)[k] == ImageOf(s0, d, UPAGE + k);
  }

  lemma PageSane(kend: nat, s: State, d: nat, v: nat)
    requires Good(kend, s) && d in s.spaces && v in s.spaces[d].pages
    ensures v / NSLOT in s.spaces[d].tabs && EntryOk(s.spaces[d].pages[v]) && |s.mem| == NP && v < UTOP
  {
    assert SpaceOk(s.mem, s.owner, d, s.spaces[d]);
  }

  /** Page k of the copy is still open. */
  lemma CopyTarget(s0: State, s1: State, s: State, e: nat, rodata: nat, images: seq<Image>)
    requires Building(s0, s1, e, rodata, NP) && Grown(e, s1, s, UPAGE, images)
    ensures UPAGE + |images| !in s.spaces[e].pages
  {
  }

  /** Out of pages in the middle of a copy. */
  lemma CopyStuck(s0: State, s1: State, s: State, r: State, e: nat, rodata: nat, n: nat, k: nat, images: seq<Image>,
                  mem: word, data: Page)
    requires Building(s0, s1, e, rodata, NP) && Grown(e, s1, s, UPAGE, images) && |images| == k < n
    requires if mem == 0 then s.free == [] else InHand(s, r, e, mem, data) && (UPAGE + k) / NSLOT !in s.spaces[e].tabs
    ensures |s0.free| < ForkCost(n)
  {
    BuildingDone(s0, s1, e, rodata);
    FreshCost(s1.spaces[e].tabs, n);
    if mem == 0 {
      OutOfFrames(e, s1, s, UPAGE, images, n);
    } else {
      OutOfTables(e, s1, s, UPAGE, images, n);
    }
  }

  lemma CopyCost(s0: State, s1: State, s: State, e: nat, rodata: nat, images: seq<Image>)
    requires Building(s0, s1, e, rodata, NP) && Grown(e, s1, s, UPAGE, images)
    ensures |s.free| == |s0.free| - ForkCost(|images|)
  {
    BuildingDone(s0, s1, e, rodata);
    FreshCost(s1.spaces[e].tabs, |images|);
    GrownCost(e, s1, s, UPAGE, images);
  }

  lemma GrownStill(kend: nat, s0: State, s1: State, s: State, e: nat, rodata: nat, images: seq<Image>)
    requires Building(s0, s1, e, rodata, NP) && Grown(e, s1, s, UPAGE, images) && Good(kend, s0)
    ensures GivenUp(s0, s, e)
  {
    hide Good;
    BuildingIntoOnly(s0, s1, e, rodata, NP);
    GrownIntoOnly(kend, e, s0, s1, s, UPAGE, |images|);
    hide OnlyInto, OwnersGrow, Holds;
    BuiltKernelTabs(s0, s1, e, rodata);
    KernelTabsStay(s1.spaces[e].tabs, s.spaces[e].tabs, UPAGE, |images|);
    assert s.spaces == s0.spaces[e := s.spaces[e]];
  }
}
