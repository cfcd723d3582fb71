/** What copyuvm achieves: a second address space with the same contents on fresh pages. */
module Forking {
  import opened Counting
  import opened Memory
  import opened Paging
  import opened Mapping
  import opened Unmapping
  import opened KernelMap
  import opened Growing

  /** Pages in use keep owner and contents; free pages stay free or go to the new address space e. */
  ghost predicate OnlyInto(e: nat, s0: State, s: State) {
    && |s0.mem| == |s.mem| == NP && |s0.owner| == |s.owner| == NP
    && forall p {:trigger s.owner[p]} {:trigger s.mem[p]} :: 0 <= p < NP ==>
         if s0.owner[p].Free?
         then s.owner[p].Free? || s.owner[p] == Dir(e) || TableOf(s.owner[p], e) || FrameOf(s.owner[p], e)
         else s.owner[p] == s0.owner[p] && s.mem[p] == s0.mem[p]
  }

  lemma BuildingIntoOnly(s0: State, s: State, e: nat, rodata: nat, n: nat)
    requires Building(s0, s, e, rodata, n)
    ensures OnlyInto(e, s0, s)
  {
  }

  lemma GrownIntoOnly(kend: nat, e: nat, s0: State, s1: State, s: State, v: nat, k: nat)
    requires Good(kend, s0) && e !in s0.spaces && OnlyInto(e, s0, s1) && OwnersGrow(e, s1, s, v, k)
    ensures OnlyInto(e, s0, s)
  {
    NoTrace(kend, s0, e);
    hide Good;
  }

  /** What page v of d holds and with what flags. */
  function ImageOf(s: State, d: nat, v: nat): Image
    requires d in s.spaces && v in s.spaces[d].pages && s.spaces[d].pages[v].frame < |s.mem|
  {
    Image(s.mem[s.spaces[d].pages[v].frame], s.spaces[d].pages[v].flags)
  }

  /** The first n user pages of d are mapped. */
  ghost predicate UserPagesThere(s: State, d: nat, n: nat) {
    && |s.mem| == NP && d in s.spaces
    && forall v :: UPAGE <= v < UPAGE + n ==> v in s.spaces[d].pages && s.spaces[d].pages[v].frame < NP
  }

  function ImagesOf(s: State, d: nat, n: nat): seq<Image>
    requires UserPagesThere(s, d, n)
  {
    seq(n, i requires 0 <= i < n => ImageOf(s, d, UPAGE + i))
  }

  /** e is a copy of the first n user pages of d: same pages, same flags, same contents, on frames that were
      free; e has a kernel half of its own; and nothing that was in use has changed. */
  ghost predicate CopyOf(s0: State, s: State, d: nat, e: nat, rodata: nat, n: nat) {
    && UserPagesThere(s0, d, n) && OnlyInto(e, s0, s)
    && e !in s0.spaces && e in s.spaces && s.spaces == s0.spaces[e := s.spaces[e]]
    && KernelHalf(s.spaces[e], rodata)
    && (forall v :: v in s.spaces[e].pages && UPAGE <= v <==> UPAGE <= v < UPAGE + n)
    && Holds(e, s0, s, UPAGE, ImagesOf(s0, d, n))
  }

  lemma CopyDone(kend: nat, s0: State, s1: State, s: State, d: nat, e: nat, rodata: nat, n: nat)
    requires Good(kend, s0) && UserPagesThere(s0, d, n) && Building(s0, s1, e, rodata, NP)
    requires Grown(e, s1, s, UPAGE, ImagesOf(s0, d, n))
    ensures CopyOf(s0, s, d, e, rodata, n)
  {
    hide Good;
    BuildingIntoOnly(s0, s1, e, rodata, NP);
    GrownIntoOnly(kend, e, s0, s1, s, UPAGE, n);
    CopyKernelHalf(s0, s1, s, e, rodata, n, ImagesOf(s0, d, n));
    CopyHolds(s0, s1, s, e, rodata, ImagesOf(s0, d, n));
  }

  lemma CopyKernelHalf(s0: State, s1: State, s: State, e: nat, rodata: nat, n: nat, images: seq<Image>)
    requires Building(s0, s1, e, rodata, NP) && Grown(e, s1, s, UPAGE, images) && |images| == n
    ensures KernelHalf(s.spaces[e], rodata)
    ensures forall v :: v in s.spaces[e].pages && UPAGE <= v <==> UPAGE <= v < UPAGE + n
    ensures s.spaces == s0.spaces[e := s.spaces[e]]
  {
    hide OnlyPagingOf, OwnersGrow, Holds;
    assert s.spaces == s1.spaces[e := s.spaces[e]] && s1.spaces == s0.spaces[e := s1.spaces[e]];
  }

  lemma CopyHolds(s0: State, s1: State, s: State, e: nat, rodata: nat, images: seq<Image>)
    requires Building(s0, s1, e, rodata, NP) && Grown(e, s1, s, UPAGE, images)
    ensures |s0.owner| == |s.mem| == NP && Holds(e, s0, s, UPAGE, images)
  {
    hide OwnersGrow, TabsGrow, PagesGrow, KernelPages, KernelTabs;
    SizesOfGrown(e, s1, s, UPAGE, images);
  }

  // ---- failure -------------------------------------------------------------------------------

  /** Tearing down what had been copied leaves the kernel tables behind and nothing else. */
  lemma CopyUndone(kend: nat, s0: State, s: State, t: State, e: nat)
    requires Good(kend, s0) && e !in s0.spaces && OnlyInto(e, s0, s) && Dismantled(e, s, t)
    requires e in s.spaces && s.spaces == s0.spaces[e := s.spaces[e]]
    ensures LeftBehind(s0, t) && t.spaces == s0.spaces
  {
    NoTrace(kend, s0, e);
    NoSpaceNoHeld(s0, s, t, e);
    assert t.spaces == s0.spaces;
    hide Good;
  }

  lemma NoSpaceNoHeld(s0: State, s: State, t: State, e: nat)
    requires OnlyInto(e, s0, s) && Dismantled(e, s, t)
    requires forall p :: 0 <= p < NP ==> s0.owner[p] != Dir(e) && !TableOf(s0.owner[p], e) && !FrameOf(s0.owner[p], e)
    ensures forall p {:trigger t.owner[p]} {:trigger t.mem[p]} :: 0 <= p < NP ==>
              if s0.owner[p].Free? then t.owner[p].Free? || t.owner[p].Retired?
              else t.owner[p] == s0.owner[p] && t.mem[p] == s0.mem[p]
  {
  }

  /** Taking a page and giving it straight back. */
  lemma TakeAndReturn(e: nat, s0: State, s: State, data: Page)
    requires OnlyInto(e, s0, s) && s.free != [] && s.free[|s.free| - 1] < NP && s.head / PAGESIZE < NP
    requires s.owner[s.free[|s.free| - 1]].Free?
    ensures var r := TakeAndFill(s, e, data);
            OnlyInto(e, s0, PushFree(r, s.free[|s.free| - 1]))
  {
  }

  // ---- the exact number of pages -------------------------------------------------------------

  function CeilDiv(n: nat, k: nat): nat
    requires k > 0
  {
    (n + k - 1) / k
  }

  /** Mapping n user pages where there is no user table takes a table per 1024 pages. */
  lemma FreshCost(tabs: map<nat, nat>, n: nat)
    requires KernelTabs(tabs, NP)
    ensures Cost(tabs, UPAGE, n) == n + CeilDiv(n, NSLOT)
  {
    CountRange(NewTabs(tabs, UPAGE, n), USLOT, CeilDiv(n, NSLOT));
  }

  /** The pages fork needs for an address space of n user pages. */
  function ForkCost(n: nat): nat {
    KTABS + 1 + n + CeilDiv(n, NSLOT)
  }
}
