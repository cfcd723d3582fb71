/** What is lost for good: the kernel page tables that freevm leaves behind, counted page by page. */
module Losses {
  import opened Counting
  import opened Paging
  import opened Mapping
  import opened Unmapping
  import opened KernelMap
  import opened Forking

  ghost function FreePages(s: State): set<nat> {
    set p | 0 <= p < |s.owner| && s.owner[p].Free?
  }

  /** The pages that nothing refers to and that are not free either. */
  ghost function RetiredPages(s: State): set<nat> {
    set p | 0 <= p < |s.owner| && s.owner[p].Retired?
  }

  predicate IsKernelTable(o: Owner, d: nat) {
    o.Tab? && o.dir == d && o.slot < USLOT
  }

  /** The page tables of d's kernel half. */
  ghost function KernelTablePages(s: State, d: nat): set<nat> {
    set p | 0 <= p < |s.owner| && IsKernelTable(s.owner[p], d)
  }

  /** The page tables of a kernel half by slot. */
  function KernelSlots(tabs: map<nat, nat>): map<nat, nat> {
    map j | j in tabs && j < USLOT :: tabs[j]
  }

  /** The list is as long as there are free pages. */
  lemma FreeCount(kend: nat, s: State)
    requires Good(kend, s)
    ensures |FreePages(s)| == |s.free|
  {
    forall j, k | 0 <= j < k < |s.free|
      ensures s.free[j] != s.free[k]
    {
      assert s.owner[s.free[j]] == Free(j) && s.owner[s.free[k]] == Free(k);
    }
    CountDistinct(s.free);
    assert FreePages(s) == Elements(s.free);
  }

  /** Different slots have different tables. */
  lemma KernelTableCount(kend: nat, s: State, d: nat)
    requires Good(kend, s) && d in s.spaces
    ensures |KernelTablePages(s, d)| == |KernelSlots(s.spaces[d].tabs)|
  {
    hide Good;
    ValidSizes(kend, s);
    var slots := KernelSlots(s.spaces[d].tabs);
    forall j | j in slots
      ensures slots[j] in KernelTablePages(s, d) && s.owner[slots[j]] == Tab(d, j)
    {
      SlotOwner(kend, s, d, j);
    }
    forall p | p in KernelTablePages(s, d)
      ensures p in slots.Values
    {
      var j := s.owner[p].slot;
      SlotOwner(kend, s, d, j);
      assert j in slots && slots[j] == p;
    }
    CountValues(slots);
    assert slots.Values == KernelTablePages(s, d);
  }

  /** freevm leaves behind the kernel tables of the space it dismantles, and no other page. */
  lemma RetiredGrow(d: nat, s: State, t: State)
    requires Dismantled(d, s, t)
    ensures RetiredPages(t) == RetiredPages(s) + KernelTablePages(s, d)
  {
  }

  // ---- a new address space that is given up --------------------------------------------------

  /** The kernel half has all its tables. */
  ghost predicate KernelTabsThere(tabs: map<nat, nat>) {
    forall j :: 0 <= j < USLOT ==> (j in tabs <==> j < KTABS)
  }

  lemma KernelSlotCount(tabs: map<nat, nat>)
    requires KernelTabsThere(tabs)
    ensures |KernelSlots(tabs)| == KTABS
  {
    CountRange(KernelSlots(tabs).Keys, 0, KTABS);
    assert |KernelSlots(tabs)| == |KernelSlots(tabs).Keys|;
  }

  /** The new space e, with a complete kernel half, is all that distinguishes s from s0. */
  ghost predicate GivenUp(s0: State, s: State, e: nat) {
    && OnlyInto(e, s0, s) && e !in s0.spaces && e in s.spaces && s.spaces == s0.spaces[e := s.spaces[e]]
    && KernelTabsThere(s.spaces[e].tabs)
  }

  /** The free pages that are left when setupkvm or a later step of copyuvm or execv has failed with F free pages
      to begin with: the kernel tables built until then, 128 if the kernel half was finished, are lost. */
  function AfterFailure(free: nat): nat {
    if free == 0 then 0 else if free <= KTABS + 1 then 1 else free - KTABS
  }

  /** Dismantling gives back everything that was taken but the kernel tables. */
  lemma FreeAgain(kend: nat, s0: State, s: State, t: State, e: nat)
    requires OnlyInto(e, s0, s) && e !in s0.spaces && e in s.spaces && Dismantled(e, s, t)
    requires Good(kend, s0) && Good(kend, s) && Good(kend, t)
    ensures |t.free| + |KernelSlots(s.spaces[e].tabs)| == |s0.free|
    ensures RetiredPages(t) == RetiredPages(s0) + KernelTablePages(s, e)
  {
    hide Good;
    NoTrace(kend, s0, e);
    FreeCount(kend, s0);
    FreeCount(kend, t);
    KernelTableCount(kend, s, e);
    TakenAndFreed(s0, s, t, e);
  }

  lemma TakenAndFreed(s0: State, s: State, t: State, e: nat)
    requires OnlyInto(e, s0, s) && Dismantled(e, s, t)
    requires forall p {:trigger s0.owner[p]} :: 0 <= p < NP ==>
               s0.owner[p] != Dir(e) && !TableOf(s0.owner[p], e) && !FrameOf(s0.owner[p], e)
    ensures FreePages(s0) == FreePages(t) + KernelTablePages(s, e) && FreePages(t) !! KernelTablePages(s, e)
    ensures |FreePages(s0)| == |FreePages(t)| + |KernelTablePages(s, e)|
    ensures RetiredPages(t) == RetiredPages(s0) + KernelTablePages(s, e)
  {
    assert FreePages(s0) == FreePages(t) + KernelTablePages(s, e);
    assert RetiredPages(s) == RetiredPages(s0);
    RetiredGrow(e, s, t);
  }

  /** With a complete kernel half exactly 128 pages are lost. */
  lemma GivenUpCount(kend: nat, s0: State, s: State, t: State, e: nat)
    requires GivenUp(s0, s, e) && Dismantled(e, s, t) && |s0.free| >= KTABS + 1
    requires Good(kend, s0) && Good(kend, s) && Good(kend, t)
    ensures LeftBehind(s0, t) && t.spaces == s0.spaces && |t.free| == AfterFailure(|s0.free|)
  {
    hide Good, OnlyInto, Dismantled, LeftBehind;
    CopyUndone(kend, s0, s, t, e);
    FreeAgain(kend, s0, s, t, e);
    KernelSlotCount(s.spaces[e].tabs);
  }

  /** If the kernel half could not be finished, only the directory comes back. */
  lemma UnfinishedCount(kend: nat, s0: State, s: State, t: State, e: nat, rodata: nat, n: nat)
    requires Building(s0, s, e, rodata, n) && n <= NP && s.free == [] && Dismantled(e, s, t)
    requires Good(kend, s0) && Good(kend, s) && Good(kend, t)
    ensures |t.free| == 1
  {
    hide Good;
    BuildingIntoOnly(s0, s, e, rodata, n);
    FreeAgain(kend, s0, s, t, e);
    assert KernelSlots(s.spaces[e].tabs) == s.spaces[e].tabs;
  }

  lemma BuiltKernelTabs(s0: State, s: State, e: nat, rodata: nat)
    requires Building(s0, s, e, rodata, NP)
    ensures GivenUp(s0, s, e)
  {
    BuildingIntoOnly(s0, s, e, rodata, NP);
  }

  /** New user tables are not kernel tables. */
  lemma KernelTabsStay(tabs: map<nat, nat>, tabs': map<nat, nat>, v: nat, k: nat)
    requires KernelTabsThere(tabs) && TabsGrow(tabs, tabs', v, k) && UPAGE <= v
    ensures KernelTabsThere(tabs')
  {
  }
}
