/** kernel/mm/vm.c: the functions that move bytes in and out of user pages. */
module UserMemory {
  import opened Memory
  import opened Paging
  import opened Steps
  import opened Mapping
  import opened Unmapping
  import opened Growing
  import opened Virtual
  import opened FileSpec
  import opened Allocator
  import opened Vm

  /** The src argument of copyout: null asks for zeros. */
  datatype Source = Null | Bytes(data: seq<byte>)

  function Zeros(n: nat): seq<byte> { seq(n, _ => 0) }

  /** The bytes copyout is asked to store. */
  function Wanted(src: Source, len: nat): (data: seq<byte>)
    requires src.Bytes? ==> len <= |src.data|
    ensures |data| == len
  {
    if src.Null? then Zeros(len) else src.data[..len]
  }

  /** Every address of [va, va + len) is in a mapped user page. */
  ghost predicate UserRange(s: State, d: nat, va: nat, len: nat) {
    forall a: nat :: va <= a < va + len ==> UserAddr(s, d, a)
  }

  /** Find the frame behind address a and store bytes in it, all within one page. */
  method StoreChunk(m: Machine, pgdir: word, a: word, chunk: seq<byte>)
    requires m.Valid() && IsDir(m, pgdir) && UserAddr(m.View(), pgdir / PAGESIZE, a) // else panic
    requires a % PAGESIZE + |chunk| <= PAGESIZE
    modifies m.mem, m`coremap, m`free, m`owner, m`spaces
    ensures UserAddr(old(m.View()), pgdir / PAGESIZE, a)
    ensures m.View() == WriteChunk(old(m.View()), pgdir / PAGESIZE, a, chunk)
  {
    hide Good;
    ghost var d, s := pgdir / PAGESIZE, m.View();
    PageSane(m.kend, s, d, a / PAGESIZE);
    PteOfPage(m.kend, s, d, a / PAGESIZE);
    var pte := WalkPgdir(m, pgdir, a, false);
    assert pte != 0 && Present(Load(m.mem, pte)); // else panic("copyout"), panic("loaduvm: pte should exist")
    var pa := PteAddr(Load(m.mem, pte));
    m.mem[pa / PAGESIZE] := PutBytes(m.mem[pa / PAGESIZE], a % PAGESIZE, chunk);
  }

  /** Store bytes at [va, va + len) of another address space, page by page. */
  method CopyOut(m: Machine, pgdir: word, va: word, src: Source, len: word)
    requires m.Valid() && IsDir(m, pgdir) && va + len <= USEREND && (src.Bytes? ==> len <= |src.data|)
    requires UserRange(m.View(), pgdir / PAGESIZE, va, len) // else panic("copyout")
    modifies m.mem, m`coremap, m`free, m`owner, m`spaces
    ensures m.Valid() && IsDir(m, pgdir)
    ensures Wrote(pgdir / PAGESIZE, old(m.View()), m.View(), va, Wanted(src, len))
  {
    hide Good, Wrote, WriteChunk;
    ghost var d, s0, data := pgdir / PAGESIZE, m.View(), Wanted(src, len);
    ValidSizes(m.kend, s0);
    WroteNothing(d, s0, va);
    var a, rest, i := va, len, 0;
    while rest > 0
      invariant 0 <= i <= len && i + rest == len && a == va + i
      invariant m.Valid() && IsDir(m, pgdir) && Wrote(d, s0, m.View(), va, data[..i])
      decreases rest
    {
      ghost var s := m.View();
      WroteSame(d, s0, s, va, data[..i]);
      assert UserAddr(s0, d, a);
      var n := PAGESIZE - (a - RoundDown(a));
      if n > rest {
        n := rest;
      }
      ChunkInPage(a, n);
      var chunk := if src.Bytes? then src.data[i..i + n] else Zeros(n);
      assert data[..i] + chunk == data[..i + n];
      StoreChunk(m, pgdir, a, chunk);
      WroteNext(m.kend, d, s0, s, m.View(), va, data[..i], chunk);
      WroteSame(d, s0, m.View(), va, data[..i + n]);
      rest, a, i := rest - n, a + n, i + n;
    }
    assert data[..i] == data;
  }

  lemma ChunkInPage(a: word, n: nat)
    requires n <= PAGESIZE - (a - RoundDown(a))
    ensures a - RoundDown(a) == a % PAGESIZE && a % PAGESIZE + n <= PAGESIZE
  {
  }

  lemma WroteSame(d: nat, s0: State, s: State, va: nat, data: seq<byte>)
    requires Wrote(d, s0, s, va, data)
    ensures s == s0.(mem := s.mem) && |s.mem| == NP && |s0.mem| == NP
    ensures forall a: nat :: UserAddr(s, d, a) <==> UserAddr(s0, d, a)
  {
  }

  // ---- loaduvm -------------------------------------------------------------------------------

  /** Read [offset, offset + size) of a file into user memory at va, page by page. Returns 0, or -1 at the
      first read that does not deliver a whole chunk; what was read until then stays in memory. */
  method LoadUvm(m: Machine, pgdir: word, va: word, file: seq<byte>, offset: word, size: word) returns (r: int,
      ghost loaded: seq<byte>)
    requires m.Valid() && IsDir(m, pgdir) && FileFits(file)
    requires va % PAGESIZE == 0 // else panic("loaduvm: addr must be page aligned")
    requires va + size <= USEREND
    requires UserRange(m.View(), pgdir / PAGESIZE, va, size) // else panic("loaduvm: pte should exist")
    modifies m.mem, m`coremap, m`free, m`owner, m`spaces
    ensures m.Valid() && IsDir(m, pgdir)
    ensures Wrote(pgdir / PAGESIZE, old(m.View()), m.View(), va, loaded) && |loaded| <= size
    ensures r == if size == 0 || offset + size <= |file| then 0 else -1
    ensures r == 0 ==> loaded == if size == 0 then [] else file[offset..offset + size]
  {
    hide Good, Wrote, WriteChunk, ReadCount;
    ghost var d, s0 := pgdir / PAGESIZE, m.View();
    ValidSizes(m.kend, s0);
    WroteNothing(d, s0, va);
    loaded := [];
    var i := 0;
    while i < size
      invariant 0 <= i && i % PAGESIZE == 0 && |loaded| == Least(i, size)
      invariant i == 0 || (offset + |loaded| <= |file| && loaded == file[offset..offset + |loaded|])
      invariant i == 0 ==> loaded == []
      invariant m.Valid() && IsDir(m, pgdir) && Wrote(d, s0, m.View(), va, loaded)
      decreases size - i
    {
      ghost var s := m.View();
      WroteSame(d, s0, s, va, loaded);
      assert UserAddr(s0, d, va + i);
      var n := if size - i < PAGESIZE then size - i else PAGESIZE;
      var from := (offset + i) % 0x1_0000_0000;
      var got := ReadCount(|file|, from, n);
      LoadChunk(file, offset, i, n);
      AlignedSum(va, i);
      if got > 0 {
        StoreChunk(m, pgdir, va + i, file[from..from + got]);
        WroteNext(m.kend, d, s0, s, m.View(), va, loaded, file[from..from + got]);
        WroteSame(d, s0, m.View(), va, loaded + file[from..from + got]);
        loaded := loaded + file[from..from + got];
      }
      if got != n {
        return -1, loaded;
      }
      assert loaded == file[offset..offset + |loaded|];
      i := i + PAGESIZE;
    }
    r := 0;
  }

  /** One read of loaduvm: it delivers the whole chunk exactly when the chunk is within the file. */
  lemma LoadChunk(file: seq<byte>, offset: word, i: nat, n: nat)
    requires FileFits(file) && (i == 0 || offset + i <= |file|) && 0 < n <= PAGESIZE
    ensures var from := (offset + i) % 0x1_0000_0000;
            var got := ReadCount(|file|, from, n);
            && got <= n && (got == n <==> offset + i + n <= |file|)
            && (got > 0 ==> from == offset + i && from + got <= |file|)
  {
  }

  lemma AlignedSum(a: nat, b: nat)
    requires a % PAGESIZE == 0 && b % PAGESIZE == 0
    ensures (a + b) % PAGESIZE == 0
  {
    var x, y := a / PAGESIZE, b / PAGESIZE;
    assert a + b == (x + y) * PAGESIZE;
  }

  function Least(a: nat, b: nat): nat { if a < b then a else b }

  // ---- the user stack ------------------------------------------------------------------------

  const GUARD_PAGE := Image(ZeroPage(), PTE_P + PTE_W)

  /** Changing the flags of the first new page. */
  lemma GuardFirst(kend: nat, d: nat, s0: State, s: State, t: State, v: nat, images: seq<Image>, flags: nat)
    requires Grown(d, s0, s, v, images) && |images| > 0 && flags < PAGESIZE && flags % 2 == 1
    requires v in s.spaces[d].pages && v / NSLOT in s.spaces[d].tabs && s.spaces[d].tabs[v / NSLOT] < NP
    requires t == WritePte(s, d, v, s.spaces[d].pages[v := s.spaces[d].pages[v].(flags := flags)])
    requires UPAGE <= v && d in s0.spaces && v !in s0.spaces[d].pages && Good(kend, s)
    ensures Good(kend, t) && Grown(d, s0, t, v, images[0 := images[0].(flags := flags)])
  {
    hide Good, Keeps, OwnersGrow, Holds, TabsGrow, PagesGrow, WritePte;
    SizesOfGrown(d, s0, s, v, images);
    PageSane(kend, s, d, v);
    SetFlagsKeeps(kend, s, d, v, flags);
    GrownFrames(kend, d, s0, s, v, images);
    TableOwner(kend, s, d, v / NSLOT);
    GuardHolds(d, s0, s, t, v, images, flags);
    GuardOwners(d, s0, s, t, v, |images|, flags);
    GuardPages(s0.spaces[d].pages, s.spaces[d].pages, v, |images|, flags);
  }

  lemma GuardOwners(d: nat, s0: State, s: State, t: State, v: nat, k: nat, flags: nat)
    requires OwnersGrow(d, s0, s, v, k) && d in s.spaces
    requires v in s.spaces[d].pages && v / NSLOT in s.spaces[d].tabs && s.spaces[d].tabs[v / NSLOT] < NP
    requires s.owner[s.spaces[d].tabs[v / NSLOT]] == Tab(d, v / NSLOT)
    requires t == WritePte(s, d, v, s.spaces[d].pages[v := s.spaces[d].pages[v].(flags := flags)])
    ensures OwnersGrow(d, s0, t, v, k) && t.free == s.free
    ensures t.spaces == s.spaces[d :=
              s.spaces[d].(pages := s.spaces[d].pages[v := s.spaces[d].pages[v].(flags := flags)])]
  {
  }

  lemma GuardPages(pages: map<nat, Entry>, pages': map<nat, Entry>, v: nat, k: nat, flags: nat)
    requires PagesGrow(pages, pages', v, k) && k > 0 && v in pages' && v !in pages
    ensures PagesGrow(pages, pages'[v := pages'[v].(flags := flags)], v, k)
  {
  }

  lemma GuardHolds(d: nat, s0: State, s: State, t: State, v: nat, images: seq<Image>, flags: nat)
    requires |s0.owner| == |s.owner| == NP && |s.mem| == NP && d in s.spaces && |images| > 0
    requires Holds(d, s0, s, v, images)
    requires v in s.spaces[d].pages && v / NSLOT in s.spaces[d].tabs && s.spaces[d].tabs[v / NSLOT] < NP
    requires s.owner[s.spaces[d].tabs[v / NSLOT]] == Tab(d, v / NSLOT)
    requires forall u :: v <= u < v + |images| ==> s.owner[s.spaces[d].pages[u].frame] == Frm(d, u)
    requires t == WritePte(s, d, v, s.spaces[d].pages[v := s.spaces[d].pages[v].(flags := flags)])
    ensures Holds(d, s0, t, v, images[0 := images[0].(flags := flags)])
  {
  }

  /** Two more pages above `start`: a guard page the user cannot touch, and a stack. Returns the top, or 0. */
  method UStack(m: Machine, pgdir: word, start: word) returns (top: word)
    requires m.Valid() && IsDir(m, pgdir) && KERNEND <= start <= USEREND
    requires forall u :: CeilPage(start) <= u ==> u !in m.spaces[pgdir / PAGESIZE].pages
    modifies m.mem, m`coremap, m`free, m`owner, m`spaces
    ensures m.Valid() && IsDir(m, pgdir)
    ensures var d, v := pgdir / PAGESIZE, CeilPage(start);
            && top == (if (v + 2) * PAGESIZE < USEREND && |old(m.free)| >= Cost(old(m.spaces)[d].tabs, v, 2)
                       then (v + 2) * PAGESIZE else 0)
            && (top != 0 ==> Grown(d, old(m.View()), m.View(), v, [GUARD_PAGE, CLEAR_PAGE]))
            && (top == 0 ==> m.View() == old(m.View())
                             || exists k :: 0 <= k < 2 && RolledBack(d, old(m.View()), m.View(), v, k))
  {
    hide Good, Grown, RolledBack;
    ghost var d, v, s0 := pgdir / PAGESIZE, CeilPage(start), m.View();
    RoundUpIsCeil(start);
    assert ClearPages(2) == [CLEAR_PAGE, CLEAR_PAGE];
    var va := RoundUp(start);
    top := AllocUvm(m, pgdir, va, va + 2 * PAGESIZE);
    if top == 0 {
      return 0;
    }
    ghost var s := m.View();
    GrownFrames(m.kend, d, s0, s, v, ClearPages(2));
    FirstFlags(d, s0, s, v, ClearPages(2));
    PageSane(m.kend, s, d, v);
    PteOfPage(m.kend, s, d, v);
    EntryWord(m.kend, s, d, v);
    var pte := WalkPgdir(m, pgdir, va, false);
    Store(m.mem, pte, WithoutU(Load(m.mem, pte)));
    m.spaces := m.spaces[d :=
      m.spaces[d].(pages := m.spaces[d].pages[v := m.spaces[d].pages[v].(flags := PTE_P + PTE_W)])];
    assert [CLEAR_PAGE, CLEAR_PAGE][0 := CLEAR_PAGE.(flags := PTE_P + PTE_W)] == [GUARD_PAGE, CLEAR_PAGE];
    ClearUser(s.spaces[d].pages[v]);
    GuardFirst(m.kend, d, s0, s, m.View(), v, ClearPages(2), PTE_P + PTE_W);
  }

  lemma FirstFlags(d: nat, s0: State, s: State, v: nat, images: seq<Image>)
    requires Grown(d, s0, s, v, images) && |images| > 0
    ensures v in s.spaces[d].pages && s.spaces[d].pages[v].flags == images[0].flags
  {
  }

  lemma EntryWord(kend: nat, s: State, d: nat, v: nat)
    requires Good(kend, s) && d in s.spaces && v in s.spaces[d].pages
    ensures v / NSLOT in s.spaces[d].tabs && s.spaces[d].tabs[v / NSLOT] < |s.mem| && EntryOk(s.spaces[d].pages[v])
    ensures s.mem[s.spaces[d].tabs[v / NSLOT]][v % NSLOT] == Encode(s.spaces[d].pages[v])
  {
    assert SpaceOk(s.mem, s.owner, d, s.spaces[d]);
  }

  /** *pte &= ~PTE_U on a user page. */
  lemma ClearUser(e: Entry)
    requires EntryOk(e) && e.flags == PTE_P + PTE_W + PTE_U
    ensures WithoutU(Encode(e)) == Encode(e.(flags := PTE_P + PTE_W))
  {
    UserBit(e.frame);
  }

  lemma UserBit(f: nat)
    ensures (f * PAGESIZE + 7) / PTE_U % 2 == 1
  {
    var q: nat := 1024 * f + 1;
    QuarterOf(q);
    assert f * PAGESIZE + 7 == 4 * q + 3;
  }

  lemma QuarterOf(q: nat)
    ensures (4 * q + 3) / 4 == q
  {
  }

  // ---- the first process ---------------------------------------------------------------------

  /** A page of code and then zeros. */
  function CodePage(code: seq<byte>): Image
    requires |code| <= PAGESIZE
  {
    Image(PutBytes(ZeroPage(), 0, code), PTE_P + PTE_W + PTE_U)
  }

  /** One user page holding the code of the first process; the source takes the pages for granted. */
  method InitUvm(m: Machine, pgdir: word, code: seq<byte>)
    requires m.Valid() && IsDir(m, pgdir) && |code| <= PAGESIZE
    requires |m.free| >= Cost(m.spaces[pgdir / PAGESIZE].tabs, UPAGE, 1) && UPAGE !in m.spaces[pgdir / PAGESIZE].pages
    modifies m.mem, m`coremap, m`free, m`owner, m`spaces
    ensures m.Valid() && IsDir(m, pgdir)
    ensures Grown(pgdir / PAGESIZE, old(m.View()), m.View(), UPAGE, [CodePage(code)])
  {
    hide Good, Grown;
    ghost var d, s0 := pgdir / PAGESIZE, m.View();
    GrownNone(m.kend, d, s0, UPAGE);
    OneMoreFits(s0, d, UPAGE);
    var ok, pa := AddPage(m, pgdir, KERNEND, PutBytes(ZeroPage(), 0, code), PTE_W + PTE_U, s0, UPAGE, []);
    assert ok;
    assert [] + [Image(PutBytes(ZeroPage(), 0, code), WithP(PTE_W + PTE_U))] == [CodePage(code)];
  }

  lemma OneMoreFits(s: State, d: nat, v: nat)
    requires d in s.spaces && |s.free| >= Cost(s.spaces[d].tabs, v, 1)
    ensures s.free != [] && (|s.free| == 1 ==> v / NSLOT in s.spaces[d].tabs)
  {
    if v / NSLOT !in s.spaces[d].tabs {
      assert v / NSLOT in NewTabs(s.spaces[d].tabs, v, 1);
    }
  }
}
