/** What a run of mappages has done after k pages, as a relation between two states. */
module Mapping {
  import opened Memory
  import opened Paging
  import opened Steps

  /** The translation after k pages starting at v have been mapped to the frames starting at f. */
  function MapRun(pages: map<nat, Entry>, v: nat, f: nat, flags: nat, k: nat): (r: map<nat, Entry>)
    ensures forall u :: u in r <==> u in pages || v <= u < v + k
    ensures forall u :: u in r ==> r[u] == if v <= u < v + k then Entry(f + (u - v), WithP(flags)) else pages[u]
  {
    if k == 0 then pages
    else MapRun(pages, v, f, flags, k - 1)[v + (k - 1) := Entry(f + (k - 1), WithP(flags))]
  }

  /** walkpgdir(pgdir, va, 1): a table for slot i, if there was one or a page could be had. */
  function EnsureTable(s: State, d: nat, i: nat): State
    requires |s.mem| == NP && |s.owner| == NP && d < NP && i < NSLOT && d in s.spaces
    requires s.head / PAGESIZE < NP && forall k :: 0 <= k < |s.free| ==> s.free[k] < NP
  {
    if i in s.spaces[d].tabs || s.free == [] then s
    else InstallTable(PopFree(s, d), d, i, s.free[|s.free| - 1])
  }

  /** Pages that are neither free nor d's directory or tables keep their contents. */
  ghost predicate ContentKept(d: nat, s: State, t: State) {
    && |s.mem| == |t.mem| == NP && |s.owner| == NP
    && forall p {:trigger t.mem[p]} ::
         0 <= p < NP && !s.owner[p].Free? && s.owner[p] != Dir(d) && !TableOf(s.owner[p], d) ==>
         t.mem[p] == s.mem[p]
  }

  predicate TableOf(o: Owner, d: nat) {
    o.Tab? && o.dir == d
  }

  lemma EnsureTableKeeps(kend: nat, s: State, d: nat, i: nat)
    requires Good(kend, s) && d in s.spaces && i < NSLOT
    ensures d < NP && s.head / PAGESIZE < NP && forall k :: 0 <= k < |s.free| ==> s.free[k] < NP
    ensures Good(kend, EnsureTable(s, d, i)) && Keeps(d, s, EnsureTable(s, d, i))
  {
    assert SpaceOk(s.mem, s.owner, d, s.spaces[d]);
    HeadInRange(kend, s);
    if i !in s.spaces[d].tabs && s.free != [] {
      PopFreeKeeps(kend, s, d);
      var r := PopFree(s, d);
      var t := s.free[|s.free| - 1];
      InstallTableKeeps(kend, r, d, i, t);
      KeepsTransitive(d, s, r, InstallTable(r, d, i, t));
    }
  }

  /** EnsureTable adds at most the one table, from the free list, and touches nothing else. */
  lemma EnsureTableEffect(s: State, d: nat, i: nat)
    requires |s.mem| == NP && |s.owner| == NP && d < NP && i < NSLOT && d in s.spaces
    requires s.head / PAGESIZE < NP && forall k :: 0 <= k < |s.free| ==> s.free[k] < NP
    requires s.owner[d] == Dir(d) && (s.free != [] ==> s.owner[s.free[|s.free| - 1]].Free?)
    ensures var t := EnsureTable(s, d, i);
            && ContentKept(d, s, t)
            && OwnersAfter(d, s, t, 0, 0, 0)
            && d in t.spaces && t.spaces == s.spaces[d := t.spaces[d]] && t.spaces[d].pages == s.spaces[d].pages
            && (forall j :: j in t.spaces[d].tabs <==> j in s.spaces[d].tabs || (j == i && s.free != []))
            && (forall j :: j in s.spaces[d].tabs ==> t.spaces[d].tabs[j] == s.spaces[d].tabs[j])
            && |t.free| + |t.spaces[d].tabs| == |s.free| + |s.spaces[d].tabs|
  {
  }

  lemma HeadInRange(kend: nat, s: State)
    requires AllocOk(kend, s)
    ensures s.head / PAGESIZE < NP && forall k :: 0 <= k < |s.free| ==> s.free[k] < NP
  {
  }

  /** kalloc on behalf of directory d. */
  lemma PopFreeKeeps(kend: nat, s: State, d: nat)
    requires Good(kend, s) && s.free != []
    ensures Good(kend, PopFree(s, d)) && Keeps(d, s, PopFree(s, d))
    ensures s.owner[s.free[|s.free| - 1]].Free?
  {
    var t := PopFree(s, d);
    var n := |s.free| - 1;
    assert s.owner[s.free[n]] == Free(n);
    PopFreeKeepsAlloc(kend, s, d);
    forall e | e in t.spaces
      ensures SpaceOk(t.mem, t.owner, e, t.spaces[e])
    {
      SpaceFrame(s, t, e, s.spaces[e]);
    }
    forall p | 0 <= p < NP
      ensures Backs(t.owner[p], p, t.spaces)
    {
      assert Backs(s.owner[p], p, s.spaces);
    }
  }

  // ---- k pages of a mappages run -------------------------------------------------------------

  /** The tables after k pages from v are mapped: the old ones, and one for every slot the run touches. */
  ghost predicate TabsGrow(tabs: map<nat, nat>, tabs': map<nat, nat>, v: nat, k: nat) {
    && (forall i :: i in tabs ==> i in tabs' && tabs'[i] == tabs[i])
    && (forall i :: i in tabs' <==> i in tabs || (k > 0 && v / NSLOT <= i <= (v + k - 1) / NSLOT))
  }

  /** A free page stays free or becomes a table of d; any other page keeps its owner, unless it is a user
      frame that the run has mapped. */
  ghost predicate OwnersAfter(d: nat, s0: State, s: State, v: nat, f: nat, k: nat)
    requires |s0.owner| == |s.owner| == NP
  {
    forall p {:trigger s.owner[p]} :: 0 <= p < NP ==>
      if s0.owner[p].Free? then s.owner[p].Free? || TableOf(s.owner[p], d)
      else if UPAGE <= v && f <= p < f + k then s.owner[p] == Frm(d, v + (p - f))
      else s.owner[p] == s0.owner[p]
  }

  ghost predicate Mapped(d: nat, s0: State, s: State, v: nat, f: nat, flags: nat, k: nat) {
    && Keeps(d, s0, s) && ContentKept(d, s0, s)
    && d in s0.spaces && d in s.spaces && s.spaces == s0.spaces[d := s.spaces[d]]
    && s.spaces[d].pages == MapRun(s0.spaces[d].pages, v, f, flags, k)
    && TabsGrow(s0.spaces[d].tabs, s.spaces[d].tabs, v, k)
    && |s.free| + |s.spaces[d].tabs| == |s0.free| + |s0.spaces[d].tabs|
    && OwnersAfter(d, s0, s, v, f, k)
  }

  /** What mappages asks of its caller: nothing mapped in the run yet, and the user frames at hand. */
  ghost predicate CanMapRun(s: State, d: nat, v: nat, f: nat, flags: nat, n: nat)
    requires |s.owner| == NP
  {
    && d in s.spaces && f + n <= NP && flags < PAGESIZE && v + n <= UTOP && (v < UPAGE ==> v + n <= UPAGE)
    && (forall u :: v <= u < v + n ==> u !in s.spaces[d].pages)
    && (UPAGE <= v ==> forall p :: f <= p < f + n ==> s.owner[p] == Held(d))
  }

  lemma MappedNone(d: nat, s: State, v: nat, f: nat, flags: nat)
    requires |s.mem| == NP && |s.owner| == NP && d in s.spaces
    ensures Mapped(d, s, s, v, f, flags, 0)
  {
  }

  /** One turn of the loop in mappages, from the state before the walk to the state after the store. */
  function MapStep(s: State, d: nat, v: nat, e: Entry): State
    requires |s.mem| == NP && |s.owner| == NP && d < NP && v < UTOP && d in s.spaces && e.frame < NP
    requires s.head / PAGESIZE < NP && forall k :: 0 <= k < |s.free| ==> s.free[k] < NP
    requires v / NSLOT in EnsureTable(s, d, v / NSLOT).spaces[d].tabs
    requires EnsureTable(s, d, v / NSLOT).spaces[d].tabs[v / NSLOT] < NP
  {
    MapPage(EnsureTable(s, d, v / NSLOT), d, v, e)
  }

  /** t is what one turn of the loop makes of s. */
  ghost predicate Stepped(s: State, t: State, d: nat, v: nat, e: Entry) {
    && |s.mem| == NP && |s.owner| == NP && d < NP && v < UTOP && d in s.spaces && e.frame < NP
    && s.head / PAGESIZE < NP && (forall k :: 0 <= k < |s.free| ==> s.free[k] < NP)
    && v / NSLOT in EnsureTable(s, d, v / NSLOT).spaces[d].tabs
    && EnsureTable(s, d, v / NSLOT).spaces[d].tabs[v / NSLOT] < NP
    && t == MapStep(s, d, v, e)
  }

  lemma MapStepGood(kend: nat, s: State, d: nat, v: nat, e: Entry)
    requires Good(kend, s) && CanMap(s, d, v, e)
    ensures d < NP && s.head / PAGESIZE < NP && forall k :: 0 <= k < |s.free| ==> s.free[k] < NP
    ensures v / NSLOT in EnsureTable(s, d, v / NSLOT).spaces[d].tabs <==> v / NSLOT in s.spaces[d].tabs || s.free != []
    ensures Good(kend, EnsureTable(s, d, v / NSLOT))
    ensures v / NSLOT in EnsureTable(s, d, v / NSLOT).spaces[d].tabs ==>
              && EnsureTable(s, d, v / NSLOT).spaces[d].tabs[v / NSLOT] < NP
              && Good(kend, MapStep(s, d, v, e)) && Keeps(d, s, MapStep(s, d, v, e))
  {
    EnsureTableKeeps(kend, s, d, v / NSLOT);
    SpaceDir(kend, s, d);
    EnsureTableEffect(s, d, v / NSLOT);
    var r := EnsureTable(s, d, v / NSLOT);
    if v / NSLOT in r.spaces[d].tabs {
      MapPageKeeps(kend, r, d, v, e);
      KeepsTransitive(d, s, r, MapPage(r, d, v, e));
    }
  }

  lemma SpaceDir(kend: nat, s: State, d: nat)
    requires Good(kend, s) && d in s.spaces
    ensures d < NP && s.owner[d] == Dir(d) && s.head / PAGESIZE < NP
    ensures forall k :: 0 <= k < |s.free| ==> s.free[k] < NP
    ensures s.free != [] ==> s.owner[s.free[|s.free| - 1]].Free?
  {
    assert SpaceOk(s.mem, s.owner, d, s.spaces[d]);
  }

  /** What one turn of the loop does to everything but the invariant. */
  lemma MapStepEffect(kend: nat, s: State, d: nat, v: nat, e: Entry)
    requires Good(kend, s) && CanMap(s, d, v, e)
    requires d < NP && s.head / PAGESIZE < NP && forall k :: 0 <= k < |s.free| ==> s.free[k] < NP
    requires v / NSLOT in s.spaces[d].tabs || s.free != []
    requires v / NSLOT in EnsureTable(s, d, v / NSLOT).spaces[d].tabs
    requires EnsureTable(s, d, v / NSLOT).spaces[d].tabs[v / NSLOT] < NP
    ensures var t := MapStep(s, d, v, e);
            && ContentKept(d, s, t) && OwnersAfter(d, s, t, v, e.frame, 1)
            && d in t.spaces && t.spaces == s.spaces[d := t.spaces[d]] && t.spaces[d].pages == s.spaces[d].pages[v := e]
            && TabsGrow(s.spaces[d].tabs, t.spaces[d].tabs, v, 1)
            && |t.free| + |t.spaces[d].tabs| == |s.free| + |s.spaces[d].tabs|
  {
    hide Good, Keeps;
    SpaceDir(kend, s, d);
    EnsureTableKeeps(kend, s, d, v / NSLOT);
    var r := EnsureTable(s, d, v / NSLOT);
    SpaceDir(kend, r, d);
    TableOwner(kend, r, d, v / NSLOT);
    EnsureTableEffect(s, d, v / NSLOT);
    MapPageEffect(s, r, d, v, e);
  }

  lemma TableOwner(kend: nat, s: State, d: nat, i: nat)
    requires Good(kend, s) && d in s.spaces && i in s.spaces[d].tabs
    ensures 0 < s.spaces[d].tabs[i] < NP && s.owner[s.spaces[d].tabs[i]] == Tab(d, i)
  {
    assert SpaceOk(s.mem, s.owner, d, s.spaces[d]);
  }

  lemma MapPageEffect(s: State, r: State, d: nat, v: nat, e: Entry)
    requires |s.mem| == |r.mem| == NP && |s.owner| == |r.owner| == NP && d in s.spaces && d in r.spaces && e.frame < NP
    requires v / NSLOT in r.spaces[d].tabs && r.spaces[d].tabs[v / NSLOT] < NP
    requires r.owner[r.spaces[d].tabs[v / NSLOT]] == Tab(d, v / NSLOT)
    requires ContentKept(d, s, r) && OwnersAfter(d, s, r, 0, 0, 0) && (UPAGE <= v ==> !s.owner[e.frame].Free?)
    requires r.spaces == s.spaces[d := r.spaces[d]] && r.spaces[d].pages == s.spaces[d].pages
    ensures var t := MapPage(r, d, v, e);
            && ContentKept(d, s, t) && OwnersAfter(d, s, t, v, e.frame, 1) && t.free == r.free
            && d in t.spaces && t.spaces == s.spaces[d := t.spaces[d]] && t.spaces[d].pages == s.spaces[d].pages[v := e]
            && t.spaces[d].tabs == r.spaces[d].tabs
  {
  }

  /** Page k of the run can be mapped, because nothing before it touched its entry or its frame. */
  lemma CanMapNext(s0: State, s: State, d: nat, v: nat, f: nat, flags: nat, k: nat, n: nat)
    requires |s.owner| == |s0.owner| == NP && k < n
    requires Mapped(d, s0, s, v, f, flags, k) && CanMapRun(s0, d, v, f, flags, n)
    ensures CanMap(s, d, v + k, Entry(f + k, WithP(flags)))
    ensures f + k < NP && (v < UPAGE ==> v + k < UPAGE)
  {
  }

  lemma MappedOneMore(kend: nat, s0: State, s: State, t: State, d: nat, v: nat, f: nat, flags: nat, k: nat)
    requires Good(kend, s) && Mapped(d, s0, s, v, f, flags, k) && (v < UPAGE ==> v + k < UPAGE)
    requires CanMap(s, d, v + k, Entry(f + k, WithP(flags)))
    requires Stepped(s, t, d, v + k, Entry(f + k, WithP(flags)))
    ensures Good(kend, t) && Mapped(d, s0, t, v, f, flags, k + 1) && d in t.spaces
  {
    hide Good;
    var e := Entry(f + k, WithP(flags));
    MapStepGood(kend, s, d, v + k, e);
    MapStepEffect(kend, s, d, v + k, e);
    KeepsTransitive(d, s0, s, t);
    MappedCompose(s0, s, t, d, v, f, flags, k);
  }

  lemma MappedCompose(s0: State, s: State, t: State, d: nat, v: nat, f: nat, flags: nat, k: nat)
    requires Mapped(d, s0, s, v, f, flags, k) && Keeps(d, s0, t)
    requires |s.owner| == NP && ContentKept(d, s, t) && OwnersAfter(d, s, t, v + k, f + k, 1)
    requires v < UPAGE ==> v + k < UPAGE
    requires UPAGE <= v ==> f + k < NP && s.owner[f + k] == Held(d)
    requires d in t.spaces && t.spaces == s.spaces[d := t.spaces[d]]
    requires t.spaces[d].pages == s.spaces[d].pages[v + k := Entry(f + k, WithP(flags))]
    requires TabsGrow(s.spaces[d].tabs, t.spaces[d].tabs, v + k, 1)
    requires |t.free| + |t.spaces[d].tabs| == |s.free| + |s.spaces[d].tabs|
    ensures Mapped(d, s0, t, v, f, flags, k + 1)
  {
    assert ContentKept(d, s0, t) by {
      forall p | 0 <= p < NP && !s0.owner[p].Free? && s0.owner[p] != Dir(d) && !TableOf(s0.owner[p], d)
        ensures t.mem[p] == s0.mem[p]
      {
        assert s.owner[p] == s0.owner[p] || s.owner[p].Frm?;
      }
    }
    assert OwnersAfter(d, s0, t, v, f, k + 1);
    assert TabsGrow(s0.spaces[d].tabs, t.spaces[d].tabs, v, k + 1);
  }
}
