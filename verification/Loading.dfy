/** The state of exec's new address space while the program is loaded. */
module Loading {
  import opened Counting
  import opened Memory
  import opened Paging
  import opened Mapping
  import opened Unmapping
  import opened KernelMap
  import opened Growing
  import opened Forking
  import opened Losses
  import opened Virtual
  import opened Elf
  import opened Vm

  /** The user pages of a space are exactly those from KERNEND up to page `top`. */
  ghost predicate UserRegion(sp: Space, top: nat) {
    forall v :: v in sp.pages && UPAGE <= v <==> UPAGE <= v < top
  }

  /** There is a user table for every slot that the pages below `top` touch, and no other. */
  ghost predicate UserTabs(tabs: map<nat, nat>, top: nat) {
    forall j :: USLOT <= j ==> (j in tabs <==> top > UPAGE && j <= (top - 1) / NSLOT)
  }

  /** Exec is building address space e: it has a kernel half and the user pages below `top`; nothing that was
      in use in s0 has changed, and the pages it took are the ones a fork of such a space would take. */
  ghost predicate NewSpace(s0: State, s: State, e: nat, rodata: nat, top: nat) {
    && OnlyInto(e, s0, s) && e !in s0.spaces && e in s.spaces && s.spaces == s0.spaces[e := s.spaces[e]]
    && KernelHalf(s.spaces[e], rodata) && UserRegion(s.spaces[e], top)
    && UserTabs(s.spaces[e].tabs, top) && UPAGE <= top && |s.free| + ForkCost(top - UPAGE) == |s0.free|
  }

  /** Growing a region in pieces takes as many pages as growing it at once. */
  lemma CostAdds(tabs: map<nat, nat>, top: nat, n: nat)
    requires UPAGE <= top && UserTabs(tabs, top)
    ensures ForkCost(top - UPAGE) + Cost(tabs, top, n) == ForkCost(top + n - UPAGE)
  {
    var first := if top > UPAGE then (top - 1) / NSLOT + 1 else USLOT;
    var upto := if n == 0 || (top + n - 1) / NSLOT < first then first else (top + n - 1) / NSLOT + 1;
    CountRange(NewTabs(tabs, top, n), first, upto - first);
    SlotsOf(top - UPAGE);
    SlotsOf(top + n - UPAGE);
  }

  /** n user pages touch CeilDiv(n, 1024) directory slots. */
  lemma SlotsOf(n: nat)
    ensures CeilDiv(n, NSLOT) == if n == 0 then 0 else (UPAGE + n - 1) / NSLOT + 1 - USLOT
  {
  }

  lemma UserTabsGrow(tabs: map<nat, nat>, tabs': map<nat, nat>, top: nat, n: nat)
    requires UPAGE <= top && UserTabs(tabs, top) && TabsGrow(tabs, tabs', top, n)
    ensures UserTabs(tabs', top + n)
  {
  }

  /** User memory of e is the image of the first k program headers of f. */
  ghost predicate ShowsImage(s: State, e: nat, f: seq<byte>, k: nat)
    requires HasHeader(f)
  {
    forall a: nat :: UserAddr(s, e, a) ==> UserByte(s, e, a) == ImageByte(f, k, a)
  }

  /** Every user page is writable by the user. */
  ghost predicate AllUserPages(sp: Space) {
    forall v :: v in sp.pages && UPAGE <= v ==> sp.pages[v].flags == PTE_P + PTE_W + PTE_U
  }

  lemma NewSpaceStart(s0: State, s: State, e: nat, rodata: nat, f: seq<byte>)
    requires HasHeader(f) && Building(s0, s, e, rodata, NP)
    ensures NewSpace(s0, s, e, rodata, UPAGE) && ShowsImage(s, e, f, 0) && AllUserPages(s.spaces[e])
  {
    NewSpaceBare(s0, s, e, rodata);
  }

  /** setupkvm alone makes a space without user pages. */
  lemma NewSpaceBare(s0: State, s: State, e: nat, rodata: nat)
    requires Building(s0, s, e, rodata, NP)
    ensures NewSpace(s0, s, e, rodata, UPAGE)
  {
    BuildingIntoOnly(s0, s, e, rodata, NP);
    BuildingDone(s0, s, e, rodata);
    SlotsOf(0);
  }

  /** A program header that is not loaded changes nothing. */
  lemma ImageSkip(s: State, e: nat, f: seq<byte>, k: nat)
    requires HasHeader(f) && ShowsImage(s, e, f, k) && !Loadable(f, k)
    ensures ShowsImage(s, e, f, k + 1)
  {
  }

  // ---- allocuvm ------------------------------------------------------------------------------

  lemma NewSpaceGrows(kend: nat, s0: State, s: State, t: State, e: nat, rodata: nat, top: nat, images: seq<Image>)
    requires NewSpace(s0, s, e, rodata, top) && Grown(e, s, t, top, images) && Good(kend, s0)
    ensures NewSpace(s0, t, e, rodata, top + |images|)
  {
    hide Good;
    SizesOfGrown(e, s, t, top, images);
    GrownIntoOnly(kend, e, s0, s, t, top, |images|);
    GrownCost(e, s, t, top, images);
    CostAdds(s.spaces[e].tabs, top, |images|);
    UserTabsGrow(s.spaces[e].tabs, t.spaces[e].tabs, top, |images|);
    hide OnlyInto, OwnersGrow, Holds, TabsGrow, UserTabs, NewTabs, Cost, ForkCost;
    assert t.spaces == s0.spaces[e := t.spaces[e]];
  }

  /** Fresh cleared pages show the image too, if it ends below them. */
  lemma ImageGrows(kend: nat, s: State, t: State, e: nat, f: seq<byte>, k: nat, top: nat, images: seq<Image>)
    requires HasHeader(f) && ShowsImage(s, e, f, k) && UPAGE <= top && ImageEnd(f, k) <= top * PAGESIZE
    requires e in s.spaces && UserRegion(s.spaces[e], top) && Grown(e, s, t, top, images)
    requires forall i :: 0 <= i < |images| ==> images[i].data == ZeroPage()
    requires Good(kend, s)
    ensures ShowsImage(t, e, f, k)
  {
    hide Good, ImageByte, ImageEnd;
    forall a: nat | UserAddr(t, e, a)
      ensures UserByte(t, e, a) == ImageByte(f, k, a)
    {
      var v := a / PAGESIZE;
      if v < top {
        assert v in s.spaces[e].pages;
        FrameOwner(kend, s, e, v);
        assert UserAddr(s, e, a) && UserByte(s, e, a) == UserByte(t, e, a);
      } else {
        ImageBelowEnd(f, k, a);
        assert t.mem[t.spaces[e].pages[v].frame] == images[v - top].data;
      }
    }
  }

  lemma FlagsGrow(s: State, t: State, e: nat, top: nat, n: nat)
    requires e in s.spaces && AllUserPages(s.spaces[e]) && Grown(e, s, t, top, ClearPages(n))
    ensures AllUserPages(t.spaces[e])
  {
    hide OwnersGrow;
    forall v | v in t.spaces[e].pages && UPAGE <= v
      ensures t.spaces[e].pages[v].flags == PTE_P + PTE_W + PTE_U
    {
      if v !in s.spaces[e].pages {
        assert ClearPages(n)[v - top] == CLEAR_PAGE;
      }
    }
  }

  lemma NewSpaceRolledBack(kend: nat, s0: State, s: State, t: State, e: nat, rodata: nat, top: nat, k: nat)
    requires NewSpace(s0, s, e, rodata, top) && RolledBack(e, s, t, top, k) && Good(kend, s0)
    ensures GivenUp(s0, t, e)
  {
    hide Good;
    GrownIntoOnly(kend, e, s0, s, t, top, 0);
    hide OnlyInto, OwnersGrow;
    assert t.spaces == s0.spaces[e := t.spaces[e]];
  }

  // ---- writing into the new space ------------------------------------------------------------

  lemma NewSpaceWritten(kend: nat, s0: State, s: State, t: State, e: nat, rodata: nat, top: nat, va: nat,
                        data: seq<byte>)
    requires NewSpace(s0, s, e, rodata, top) && Wrote(e, s, t, va, data) && Good(kend, s0)
    ensures NewSpace(s0, t, e, rodata, top)
  {
    NoTrace(kend, s0, e);
    hide Good;
    assert OnlyInto(e, s0, t);
  }

  /** Addresses of the region are user addresses. */
  lemma RegionAddr(kend: nat, s: State, e: nat, top: nat, va: nat, len: nat)
    requires e in s.spaces && UserRegion(s.spaces[e], top) && KERNEND <= va && va + len <= top * PAGESIZE
    requires Good(kend, s)
    ensures forall a: nat :: va <= a < va + len ==> UserAddr(s, e, a)
  {
    hide Good;
    ValidSizes(kend, s);
    forall a: nat | va <= a < va + len
      ensures UserAddr(s, e, a)
    {
      assert UPAGE <= a / PAGESIZE < top;
      FrameOwner(kend, s, e, a / PAGESIZE);
    }
  }

  /** File bytes, then zeros: segment k is in place. */
  lemma ImageLoaded(s: State, t: State, u: State, e: nat, f: seq<byte>, k: nat, loaded: seq<byte>, zeros: seq<byte>)
    requires HasHeader(f) && Loadable(f, k) && ShowsImage(s, e, f, k)
    requires var p := Ph(f, k);
             && p.filesz <= p.memsz && |loaded| == p.filesz && |zeros| == p.memsz - p.filesz
             && (forall i :: 0 <= i < |zeros| ==> zeros[i] == 0)
             && (p.filesz != 0 ==> p.off + p.filesz <= |f| && loaded == f[p.off..p.off + p.filesz])
             && Wrote(e, s, t, p.vaddr, loaded) && Wrote(e, t, u, p.vaddr + p.filesz, zeros)
    ensures ShowsImage(u, e, f, k + 1)
  {
    var p := Ph(f, k);
    forall a: nat | UserAddr(u, e, a)
      ensures UserByte(u, e, a) == ImageByte(f, k + 1, a)
    {
      assert UserAddr(s, e, a) && UserAddr(t, e, a);
    }
  }
}
