/** The kernel half of an address space: what setupkvm builds, table by table. */
module KernelMap {
  import opened Counting
  import opened Memory
  import opened Paging
  import opened Steps
  import opened Mapping
  import opened Unmapping

  const NKMAP: nat := 3
  const KTABS: nat := 128 // page tables that cover [0, MEMSIZE)

  /** One entry of kmap, as kvminit fills it in. */
  datatype KMap = KMap(start: word, end: word, flags: nat)

  /** Where region i of kmap starts, in pages; region i ends where region i + 1 starts. */
  function Bound(rodata: nat, i: nat): nat {
    if i == 0 then 0 else if i == 1 then EXTPAGE else if i == 2 then rodata else NP
  }

  /** I/O space and kernel data with the rest of memory are writable, kernel text and rodata are not. */
  function KMapAt(rodata: nat, i: nat): KMap
    requires rodata <= NP
  {
    KMap(Bound(rodata, i) * PAGESIZE, Bound(rodata, i + 1) * PAGESIZE, if i == 1 then 0 else PTE_W)
  }

  /** The flags of kernel page v: never PTE_U, and PTE_W except on [EXTMEM, rodata_end). */
  function KFlags(rodata: nat, v: nat): nat {
    if EXTPAGE <= v < rodata then PTE_P else PTE_P + PTE_W
  }

  /** The pages below n, and only they, are mapped, each to itself. */
  ghost predicate KernelPages(pages: map<nat, Entry>, rodata: nat, n: nat) {
    && (forall v :: v in pages <==> 0 <= v < n)
    && (forall v :: v in pages ==> pages[v] == Entry(v, KFlags(rodata, v)))
  }

  ghost predicate KernelTabs(tabs: map<nat, nat>, n: nat) {
    forall j :: j in tabs <==> n > 0 && 0 <= j <= (n - 1) / NSLOT
  }

  /** The kernel half of an address space is complete, whatever user space holds. */
  ghost predicate KernelHalf(sp: Space, rodata: nat) {
    && (forall v :: 0 <= v < UPAGE ==> (v in sp.pages <==> v < NP))
    && (forall v :: 0 <= v < NP ==> v in sp.pages && sp.pages[v] == Entry(v, KFlags(rodata, v)))
    && (forall j :: 0 <= j < USLOT ==> (j in sp.tabs <==> j < KTABS))
  }

  /** Pages that were in use keep owner and contents; free pages may only have gone to d's paging structures. */
  ghost predicate OnlyPagingOf(d: nat, s0: State, s: State) {
    && |s0.mem| == |s.mem| == NP && |s0.owner| == |s.owner| == NP
    && forall p {:trigger s.owner[p]} {:trigger s.mem[p]} :: 0 <= p < NP ==>
         if s0.owner[p].Free? then s.owner[p].Free? || s.owner[p] == Dir(d) || TableOf(s.owner[p], d)
         else s.owner[p] == s0.owner[p] && s.mem[p] == s0.mem[p]
  }

  /** setupkvm has mapped the first n pages of the kernel half of the new directory d. */
  ghost predicate Building(s0: State, s: State, d: nat, rodata: nat, n: nat) {
    && OnlyPagingOf(d, s0, s)
    && d !in s0.spaces && d in s.spaces && s.spaces == s0.spaces[d := s.spaces[d]]
    && KernelPages(s.spaces[d].pages, rodata, n) && KernelTabs(s.spaces[d].tabs, n)
    && |s.free| + |s.spaces[d].tabs| + 1 == |s0.free|
  }

  /** The new directory: a free page, cleared. */
  function NewDir(s: State, d: nat): State
    requires |s.mem| == NP && |s.owner| == NP && d < NP
  {
    s.(mem := s.mem[d := ZeroPage()], owner := s.owner[d := Dir(d)], spaces := s.spaces[d := EmptySpace])
  }

  lemma NewDirKeeps(kend: nat, s: State, d: nat)
    requires Good(kend, s) && d < NP && s.owner[d] == Held(d)
    ensures d !in s.spaces && Good(kend, NewDir(s, d)) && Keeps(d, s, NewDir(s, d))
  {
    if d in s.spaces {
      assert SpaceOk(s.mem, s.owner, d, s.spaces[d]);
    }
    var t := NewDir(s, d);
    AllocFrame(kend, s, t);
    OthersStayOk(s, t, d);
    assert SpaceOk(t.mem, t.owner, d, EmptySpace);
    forall p | 0 <= p < NP
      ensures Backs(t.owner[p], p, t.spaces)
    {
      assert Backs(s.owner[p], p, s.spaces);
    }
  }

  lemma BuildingStart(kend: nat, s0: State, rodata: nat)
    requires Good(kend, s0) && s0.free != []
    ensures var d := s0.free[|s0.free| - 1];
            && 0 < d < NP && s0.head / PAGESIZE < NP && Good(kend, PopFree(s0, d))
            && Good(kend, NewDir(PopFree(s0, d), d)) && Building(s0, NewDir(PopFree(s0, d), d), d, rodata, 0)
  {
    var d := s0.free[|s0.free| - 1];
    PopFreeKeeps(kend, s0, d);
    NewDirKeeps(kend, PopFree(s0, d), d);
    assert s0.owner[d] == Free(|s0.free| - 1) && s0.owner[0] == Fixed;
  }

  predicate FrameOf(o: Owner, d: nat) {
    o.Frm? && o.dir == d
  }

  /** A directory that does not exist owns nothing. */
  lemma NoTrace(kend: nat, s: State, d: nat)
    requires Good(kend, s) && d !in s.spaces
    ensures forall p :: 0 <= p < NP ==> s.owner[p] != Dir(d) && !TableOf(s.owner[p], d) && !FrameOf(s.owner[p], d)
  {
    forall p | 0 <= p < NP
      ensures s.owner[p] != Dir(d) && !TableOf(s.owner[p], d) && !FrameOf(s.owner[p], d)
    {
      assert Backs(s.owner[p], p, s.spaces);
    }
  }

  /** The next region can be mapped: it starts where the last one ended. */
  lemma RegionFits(s0: State, s: State, d: nat, rodata: nat, n: nat, n': nat, flags: nat)
    requires Building(s0, s, d, rodata, n) && n' <= NP && flags < PAGESIZE
    ensures |s.owner| == NP && n <= n' ==> CanMapRun(s, d, n, n, flags, n' - n)
  {
  }

  lemma BuildingGrows(kend: nat, s0: State, s: State, t: State, d: nat, rodata: nat, n: nat, flags: nat, k: nat)
    requires Good(kend, s0) && Building(s0, s, d, rodata, n) && Mapped(d, s, t, n, n, flags, k) && n + k <= NP
    requires forall v :: n <= v < n + k ==> WithP(flags) == KFlags(rodata, v)
    ensures Building(s0, t, d, rodata, n + k)
  {
    NoTrace(kend, s0, d);
    assert KernelTabs(t.spaces[d].tabs, n + k);
    assert KernelPages(t.spaces[d].pages, rodata, n + k);
  }

  /** The number of tables is the number of 4 MB regions touched. */
  lemma TabsCount(tabs: map<nat, nat>, c: nat)
    requires forall j :: j in tabs <==> 0 <= j < c
    ensures |tabs| == c
  {
    CountRange(tabs.Keys, 0, c);
    assert |tabs| == |tabs.Keys|;
  }

  /** Nothing in use has changed; a page that was free is free, or is a kernel table left behind. */
  ghost predicate LeftBehind(s0: State, s: State) {
    && |s0.mem| == |s.mem| == NP && |s0.owner| == |s.owner| == NP
    && s.spaces == s0.spaces
    && forall p {:trigger s.owner[p]} {:trigger s.mem[p]} :: 0 <= p < NP ==>
         if s0.owner[p].Free? then s.owner[p].Free? || s.owner[p].Retired?
         else s.owner[p] == s0.owner[p] && s.mem[p] == s0.mem[p]
  }

  lemma NothingLeftBehind(s: State)
    requires |s.mem| == NP && |s.owner| == NP
    ensures LeftBehind(s, s)
  {
  }

  /** A directory with a kernel half only has tables below slot 256. */
  lemma KernelTabsOnly(kend: nat, s: State, d: nat, n: nat)
    requires Good(kend, s) && d in s.spaces && KernelTabs(s.spaces[d].tabs, n) && n <= NP
    ensures forall p :: 0 <= p < NP && TableOf(s.owner[p], d) ==> s.owner[p].slot < USLOT
  {
    forall p | 0 <= p < NP && TableOf(s.owner[p], d)
      ensures s.owner[p].slot < USLOT
    {
      assert Backs(s.owner[p], p, s.spaces);
    }
  }

  /** Giving back an unfinished kernel half leaves its tables behind and nothing else. */
  lemma BuildingUndone(kend: nat, s0: State, s: State, t: State, d: nat, rodata: nat, n: nat)
    requires Good(kend, s0) && Good(kend, s) && Building(s0, s, d, rodata, n) && n <= NP && Dismantled(d, s, t)
    ensures LeftBehind(s0, t) && t.spaces == s0.spaces
  {
    hide Good;
    NoTrace(kend, s0, d);
    KernelTabsOnly(kend, s, d, n);
    assert t.spaces == s0.spaces;
  }

  /** A finished kernel half costs 128 tables and the directory. */
  lemma BuildingDone(s0: State, s: State, d: nat, rodata: nat)
    requires Building(s0, s, d, rodata, NP)
    ensures KernelHalf(s.spaces[d], rodata) && |s.free| == |s0.free| - (KTABS + 1)
  {
    TabsCount(s.spaces[d].tabs, KTABS);
  }

  /** If the list runs dry before the end, there were not enough pages to begin with. */
  lemma BuildingStuck(s0: State, s: State, d: nat, rodata: nat, n: nat)
    requires Building(s0, s, d, rodata, n) && n < NP && s.free == [] && n / NSLOT !in s.spaces[d].tabs
    ensures |s0.free| < KTABS + 1
  {
    TabsCount(s.spaces[d].tabs, n / NSLOT);
  }
}
