/** The elementary changes vm.c makes to page tables, and the proof that each keeps the invariant. */
module Steps {
  import opened Memory
  import opened Paging

  /** A page that a function working on directory d has no business with. */
  predicate Outside(o: Owner, d: nat) {
    match o
    case Free(_) => false
    case Held(e) => e != d
    case Dir(e) => e != d
    case Tab(e, _) => e != d
    case Frm(e, _) => e != d
    case _ => true
  }

  /** Every page that is neither free nor part of address space d keeps its owner and its contents. */
  ghost predicate Keeps(d: nat, s: State, t: State) {
    && |s.mem| == |t.mem| == NP && |s.owner| == |t.owner| == NP
    && forall p {:trigger t.owner[p]} {:trigger t.mem[p]} ::
         0 <= p < NP && Outside(s.owner[p], d) ==> t.owner[p] == s.owner[p] && t.mem[p] == s.mem[p]
  }

  lemma KeepsTransitive(d: nat, s: State, t: State, u: State)
    requires Keeps(d, s, t) && Keeps(d, t, u)
    ensures Keeps(d, s, u)
  {
    forall p | 0 <= p < NP && Outside(s.owner[p], d)
      ensures u.owner[p] == s.owner[p] && u.mem[p] == s.mem[p]
    {
      assert t.owner[p] == s.owner[p];
    }
  }

  /** The free list is untouched: no page joins it, leaves it, or is written while on it. */
  ghost predicate FreeKept(s: State, t: State)
    requires |s.mem| == |t.mem| == NP && |s.owner| == |t.owner| == NP
  {
    && t.free == s.free && t.head == s.head
    && forall p {:trigger t.owner[p]} :: 0 <= p < NP ==>
         && (t.owner[p] == Fixed <==> s.owner[p] == Fixed)
         && (t.owner[p].Free? || s.owner[p].Free? ==> t.owner[p] == s.owner[p] && t.mem[p] == s.mem[p])
  }

  lemma AllocFrame(kend: nat, s: State, t: State)
    requires AllocOk(kend, s) && |t.mem| == NP && |t.owner| == NP && FreeKept(s, t)
    ensures AllocOk(kend, t)
  {
    forall k | 0 <= k < |t.free|
      ensures t.free[k] < NP && t.owner[t.free[k]] == Free(k) && t.mem[t.free[k]] == s.mem[s.free[k]]
    {
      assert s.owner[s.free[k]] == Free(k);
      assert t.owner[t.free[k]] == Free(k);
    }
    assert FreeOwned(t.owner, t.free);
    assert FreeLinked(t.mem, t.free);
  }

  /** An address space survives any change that leaves its own pages alone (user frames may be written). */
  lemma SpaceFrame(s: State, t: State, d: nat, sp: Space)
    requires |s.mem| == |t.mem| == NP && |s.owner| == |t.owner| == NP
    requires SpaceOk(s.mem, s.owner, d, sp)
    requires forall p {:trigger t.owner[p]} :: 0 <= p < NP ==>
               match s.owner[p]
               case Dir(e) => e == d ==> t.owner[p] == s.owner[p] && t.mem[p] == s.mem[p]
               case Tab(e, _) => e == d ==> t.owner[p] == s.owner[p] && t.mem[p] == s.mem[p]
               case Frm(e, _) => e == d ==> t.owner[p] == s.owner[p]
               case _ => true
    ensures SpaceOk(t.mem, t.owner, d, sp)
  {
    assert t.owner[d] == Dir(d);
    forall i | i in sp.tabs
      ensures i < NSLOT && 0 < sp.tabs[i] < NP && t.owner[sp.tabs[i]] == Tab(d, i)
      ensures t.mem[sp.tabs[i]] == s.mem[sp.tabs[i]]
    {
      assert s.owner[sp.tabs[i]] == Tab(d, i);
      assert t.owner[sp.tabs[i]] == Tab(d, i);
    }
    assert TablesHold(t.mem, sp);
    forall v | v in sp.pages && UPAGE <= v
      ensures sp.pages[v].frame < NP && t.owner[sp.pages[v].frame] == Frm(d, v)
    {
      assert s.owner[sp.pages[v].frame] == Frm(d, v);
    }
  }

  /** Work on d leaves every other address space intact. */
  lemma OthersStayOk(s: State, t: State, d: nat)
    requires |s.mem| == NP && |s.owner| == NP
    requires forall e :: e in s.spaces && e != d ==> SpaceOk(s.mem, s.owner, e, s.spaces[e])
    requires Keeps(d, s, t)
    requires forall e :: e in t.spaces && e != d ==> e in s.spaces && t.spaces[e] == s.spaces[e]
    ensures forall e :: e in t.spaces && e != d ==> SpaceOk(t.mem, t.owner, e, t.spaces[e])
  {
    forall e | e in t.spaces && e != d
      ensures SpaceOk(t.mem, t.owner, e, t.spaces[e])
    {
      SpaceFrame(s, t, e, s.spaces[e]);
    }
  }

  // ---- walkpgdir's allocation of a page table ------------------------------------------------

  /** memset(pte, 0, PAGESIZE); *pde = pte | P | W | U */
  function InstallTable(s: State, d: nat, i: nat, t: nat): State
    requires |s.mem| == NP && |s.owner| == NP && d < NP && t < NP && i < NSLOT && d in s.spaces
  {
    s.(mem := s.mem[t := ZeroPage()][d := s.mem[d][i := t * PAGESIZE + 7]],
       owner := s.owner[t := Tab(d, i)],
       spaces := s.spaces[d := s.spaces[d].(tabs := s.spaces[d].tabs[i := t])])
  }

  lemma InstallTableKeeps(kend: nat, s: State, d: nat, i: nat, t: nat)
    requires Good(kend, s) && d in s.spaces && i < NSLOT && i !in s.spaces[d].tabs
    requires t < NP && s.owner[t] == Held(d)
    ensures d < NP
    ensures Good(kend, InstallTable(s, d, i, t)) && Keeps(d, s, InstallTable(s, d, i, t))
  {
    assert SpaceOk(s.mem, s.owner, d, s.spaces[d]);
    var u := InstallTable(s, d, i, t);
    assert s.owner[0] == Fixed;
    InstallTableSpace(s, d, i, t);
    AllocFrame(kend, s, u);
    OthersStayOk(s, u, d);
    InstallTableBacked(s, d, i, t);
  }

  lemma InstallTableBacked(s: State, d: nat, i: nat, t: nat)
    requires |s.mem| == NP && |s.owner| == NP && Backed(s.owner, s.spaces)
    requires d < NP && d in s.spaces && i < NSLOT && i !in s.spaces[d].tabs && t < NP
    ensures var u := InstallTable(s, d, i, t); Backed(u.owner, u.spaces)
  {
    var u := InstallTable(s, d, i, t);
    forall p | 0 <= p < NP
      ensures Backs(u.owner[p], p, u.spaces)
    {
      assert Backs(s.owner[p], p, s.spaces);
    }
  }

  lemma InstallTableSpace(s: State, d: nat, i: nat, t: nat)
    requires |s.mem| == NP && |s.owner| == NP && d in s.spaces && SpaceOk(s.mem, s.owner, d, s.spaces[d])
    requires i < NSLOT && i !in s.spaces[d].tabs && 0 < t < NP && s.owner[t] == Held(d)
    ensures var u := InstallTable(s, d, i, t); SpaceOk(u.mem, u.owner, d, u.spaces[d])
  {
    var sp := s.spaces[d];
    InstallTableHolds(s.mem, s.owner, d, sp, i, t);
    assert FramesOwned(s.owner[t := Tab(d, i)], d, sp.pages);
  }

  lemma InstallTableHolds(mem: seq<Page>, owner: seq<Owner>, d: nat, sp: Space, i: nat, t: nat)
    requires |mem| == NP && |owner| == NP && d < NP && owner[d] == Dir(d)
    requires TablesOwned(owner, d, sp.tabs) && PagesSane(sp) && TablesHold(mem, sp)
    requires i < NSLOT && i !in sp.tabs && 0 < t < NP && owner[t] == Held(d)
    ensures TablesOwned(owner[t := Tab(d, i)], d, sp.tabs[i := t])
    ensures TablesHold(mem[t := ZeroPage()][d := mem[d][i := t * PAGESIZE + 7]], sp.(tabs := sp.tabs[i := t]))
  {
    var mem' := mem[t := ZeroPage()][d := mem[d][i := t * PAGESIZE + 7]];
    forall k | k in sp.tabs
      ensures sp.tabs[k] != t && sp.tabs[k] != d && mem'[sp.tabs[k]] == mem[sp.tabs[k]]
    {
      assert owner[sp.tabs[k]] == Tab(d, k);
    }
    forall j | 0 <= j < NSLOT
      ensures mem'[t][j] == PteWord(sp.pages, i * NSLOT + j)
    {
      assert i * NSLOT + j !in sp.pages;
    }
  }

  // ---- writing one page table entry ----------------------------------------------------------

  /** Two translations that agree except on page v. */
  ghost predicate AgreeBut(pages: map<nat, Entry>, pages': map<nat, Entry>, v: nat) {
    forall u :: u != v ==> (u in pages <==> u in pages') && (u in pages ==> pages'[u] == pages[u])
  }

  /** *pte = w for the entry of page v, after which d translates by `pages`. */
  function WritePte(s: State, d: nat, v: nat, pages: map<nat, Entry>): State
    requires |s.mem| == NP && d in s.spaces && v / NSLOT in s.spaces[d].tabs && s.spaces[d].tabs[v / NSLOT] < NP
  {
    var t := s.spaces[d].tabs[v / NSLOT];
    s.(mem := s.mem[t := s.mem[t][v % NSLOT := PteWord(pages, v)]],
       spaces := s.spaces[d := s.spaces[d].(pages := pages)])
  }

  lemma WritePteHolds(mem: seq<Page>, owner: seq<Owner>, d: nat, sp: Space, v: nat, pages: map<nat, Entry>)
    requires |mem| == NP && |owner| == NP && d < NP && owner[d] == Dir(d)
    requires TablesOwned(owner, d, sp.tabs) && DirectoryHolds(mem[d], sp.tabs) && TablesHold(mem, sp)
    requires v / NSLOT in sp.tabs && AgreeBut(sp.pages, pages, v)
    ensures sp.tabs[v / NSLOT] < NP && sp.tabs[v / NSLOT] != d
    ensures var t := sp.tabs[v / NSLOT];
            TablesHold(mem[t := mem[t][v % NSLOT := PteWord(pages, v)]], sp.(pages := pages))
  {
    var t := sp.tabs[v / NSLOT];
    var mem' := mem[t := mem[t][v % NSLOT := PteWord(pages, v)]];
    assert owner[t] == Tab(d, v / NSLOT);
    forall i, j | i in sp.tabs && 0 <= j < NSLOT
      ensures sp.tabs[i] < NP && mem'[sp.tabs[i]][j] == PteWord(pages, i * NSLOT + j)
    {
      assert owner[sp.tabs[i]] == Tab(d, i);
      assert mem[sp.tabs[i]][j] == PteWord(sp.pages, i * NSLOT + j);
      if i * NSLOT + j != v {
        assert i != v / NSLOT || j != v % NSLOT;
      }
    }
  }

  // ---- mappages: one page --------------------------------------------------------------------

  /** *pte = pa | flags | P for a page that had no mapping; a user frame passes from the kernel to d. */
  function MapPage(s: State, d: nat, v: nat, e: Entry): State
    requires |s.mem| == NP && |s.owner| == NP && e.frame < NP
    requires d in s.spaces && v / NSLOT in s.spaces[d].tabs && s.spaces[d].tabs[v / NSLOT] < NP
  {
    WritePte(s, d, v, s.spaces[d].pages[v := e]).(
      owner := if UPAGE <= v then s.owner[e.frame := Frm(d, v)] else s.owner)
  }

  ghost predicate CanMap(s: State, d: nat, v: nat, e: Entry)
    requires |s.owner| == NP
  {
    && d in s.spaces && v < UTOP && v !in s.spaces[d].pages
    && EntryOk(e) && (UPAGE <= v ==> s.owner[e.frame] == Held(d))
  }

  lemma MapPageKeeps(kend: nat, s: State, d: nat, v: nat, e: Entry)
    requires Good(kend, s) && CanMap(s, d, v, e) && v / NSLOT in s.spaces[d].tabs
    ensures s.spaces[d].tabs[v / NSLOT] < NP
    ensures Good(kend, MapPage(s, d, v, e)) && Keeps(d, s, MapPage(s, d, v, e))
  {
    assert SpaceOk(s.mem, s.owner, d, s.spaces[d]);
    assert s.owner[s.spaces[d].tabs[v / NSLOT]] == Tab(d, v / NSLOT);
    var u := MapPage(s, d, v, e);
    MapPageSpace(s, d, v, e);
    AllocFrame(kend, s, u);
    OthersStayOk(s, u, d);
    MapPageBacked(s, d, v, e);
  }

  lemma MapPageSpace(s: State, d: nat, v: nat, e: Entry)
    requires |s.mem| == NP && |s.owner| == NP && CanMap(s, d, v, e) && v / NSLOT in s.spaces[d].tabs
    requires SpaceOk(s.mem, s.owner, d, s.spaces[d])
    ensures s.spaces[d].tabs[v / NSLOT] < NP
    ensures var u := MapPage(s, d, v, e); SpaceOk(u.mem, u.owner, d, u.spaces[d])
  {
    var sp := s.spaces[d];
    var pages := sp.pages[v := e];
    WritePteHolds(s.mem, s.owner, d, sp, v, pages);
    var u := MapPage(s, d, v, e);
    TablesOwnedFrame(s.owner, u.owner, d, sp.tabs);
    forall w | w in pages && UPAGE <= w
      ensures pages[w].frame < NP && u.owner[pages[w].frame] == Frm(d, w)
    {
      if w != v {
        assert s.owner[sp.pages[w].frame] == Frm(d, w);
      }
    }
  }

  lemma TablesOwnedFrame(owner: seq<Owner>, owner': seq<Owner>, d: nat, tabs: map<nat, nat>)
    requires |owner| == |owner'| == NP && TablesOwned(owner, d, tabs)
    requires forall p :: 0 <= p < NP && owner[p].Tab? && owner[p].dir == d ==> owner'[p] == owner[p]
    ensures TablesOwned(owner', d, tabs)
  {
    forall i | i in tabs
      ensures i < NSLOT && 0 < tabs[i] < NP && owner'[tabs[i]] == Tab(d, i)
    {
      assert owner[tabs[i]] == Tab(d, i);
    }
  }

  lemma MapPageBacked(s: State, d: nat, v: nat, e: Entry)
    requires |s.mem| == NP && |s.owner| == NP && Backed(s.owner, s.spaces)
    requires CanMap(s, d, v, e) && v / NSLOT in s.spaces[d].tabs && s.spaces[d].tabs[v / NSLOT] < NP
    ensures var u := MapPage(s, d, v, e); Backed(u.owner, u.spaces)
  {
    var u := MapPage(s, d, v, e);
    forall p | 0 <= p < NP
      ensures Backs(u.owner[p], p, u.spaces)
    {
      assert Backs(s.owner[p], p, s.spaces);
    }
  }

  // ---- ustack: changing the flags of one page ------------------------------------------------

  lemma SetFlagsKeeps(kend: nat, s: State, d: nat, v: nat, flags: nat)
    requires Good(kend, s) && d in s.spaces && v in s.spaces[d].pages
    requires EntryOk(s.spaces[d].pages[v].(flags := flags))
    ensures v / NSLOT in s.spaces[d].tabs && s.spaces[d].tabs[v / NSLOT] < NP
    ensures var pages := s.spaces[d].pages;
            var u := WritePte(s, d, v, pages[v := pages[v].(flags := flags)]);
            Good(kend, u) && Keeps(d, s, u)
  {
    var sp := s.spaces[d];
    assert SpaceOk(s.mem, s.owner, d, sp);
    assert s.owner[sp.tabs[v / NSLOT]] == Tab(d, v / NSLOT);
    SetFlagsSpace(s, d, v, flags);
    var u := WritePte(s, d, v, sp.pages[v := sp.pages[v].(flags := flags)]);
    AllocFrame(kend, s, u);
    OthersStayOk(s, u, d);
    SetFlagsBacked(s, d, v, flags);
  }

  lemma SetFlagsSpace(s: State, d: nat, v: nat, flags: nat)
    requires |s.mem| == NP && |s.owner| == NP && d in s.spaces && SpaceOk(s.mem, s.owner, d, s.spaces[d])
    requires v in s.spaces[d].pages && EntryOk(s.spaces[d].pages[v].(flags := flags))
    ensures v / NSLOT in s.spaces[d].tabs && s.spaces[d].tabs[v / NSLOT] < NP
    ensures var pages := s.spaces[d].pages;
            var u := WritePte(s, d, v, pages[v := pages[v].(flags := flags)]);
            SpaceOk(u.mem, u.owner, d, u.spaces[d])
  {
    var sp := s.spaces[d];
    WritePteHolds(s.mem, s.owner, d, sp, v, sp.pages[v := sp.pages[v].(flags := flags)]);
  }

  lemma SetFlagsBacked(s: State, d: nat, v: nat, flags: nat)
    requires |s.mem| == NP && |s.owner| == NP && Backed(s.owner, s.spaces)
    requires d in s.spaces && v in s.spaces[d].pages
    requires v / NSLOT in s.spaces[d].tabs && s.spaces[d].tabs[v / NSLOT] < NP
    ensures var pages := s.spaces[d].pages;
            var u := WritePte(s, d, v, pages[v := pages[v].(flags := flags)]);
            Backed(u.owner, u.spaces)
  {
    var pages := s.spaces[d].pages;
    var u := WritePte(s, d, v, pages[v := pages[v].(flags := flags)]);
    forall p | 0 <= p < NP
      ensures Backs(u.owner[p], p, u.spaces)
    {
      assert Backs(s.owner[p], p, s.spaces);
    }
  }

  // ---- deallocuvm: one page ------------------------------------------------------------------

  /** kfree(pa); *pte = 0 */
  function UnmapPage(s: State, d: nat, v: nat): State
    requires |s.mem| == NP && |s.owner| == NP
    requires d in s.spaces && v in s.spaces[d].pages && s.spaces[d].pages[v].frame < NP
    requires v / NSLOT in s.spaces[d].tabs && s.spaces[d].tabs[v / NSLOT] < NP
  {
    WritePte(PushFree(s, s.spaces[d].pages[v].frame), d, v, s.spaces[d].pages - {v})
  }

  lemma UnmapPageKeeps(kend: nat, s: State, d: nat, v: nat)
    requires Good(kend, s) && d in s.spaces && v in s.spaces[d].pages && UPAGE <= v
    ensures v / NSLOT in s.spaces[d].tabs && s.spaces[d].tabs[v / NSLOT] < NP
    ensures kend <= s.spaces[d].pages[v].frame < NP && s.owner[s.spaces[d].pages[v].frame] == Frm(d, v)
    ensures Good(kend, UnmapPage(s, d, v)) && Keeps(d, s, UnmapPage(s, d, v))
  {
    var sp := s.spaces[d];
    assert SpaceOk(s.mem, s.owner, d, sp);
    var f := sp.pages[v].frame;
    assert s.owner[f] == Frm(d, v);
    assert s.owner[sp.tabs[v / NSLOT]] == Tab(d, v / NSLOT);
    PushFreeKeepsAlloc(kend, s, f);
    var r := PushFree(s, f);
    var u := UnmapPage(s, d, v);
    UnmapPageSpace(s, d, v);
    AllocFrame(kend, r, u);
    OthersStayOk(s, u, d);
    UnmapPageBacked(s, d, v);
  }

  lemma UnmapPageBacked(s: State, d: nat, v: nat)
    requires |s.mem| == NP && |s.owner| == NP && Backed(s.owner, s.spaces)
    requires d in s.spaces && v in s.spaces[d].pages && s.spaces[d].pages[v].frame < NP
    requires v / NSLOT in s.spaces[d].tabs && s.spaces[d].tabs[v / NSLOT] < NP
    ensures var u := UnmapPage(s, d, v); Backed(u.owner, u.spaces)
  {
    var u := UnmapPage(s, d, v);
    forall p | 0 <= p < NP
      ensures Backs(u.owner[p], p, u.spaces)
    {
      assert Backs(s.owner[p], p, s.spaces);
    }
  }

  lemma UnmapPageSpace(s: State, d: nat, v: nat)
    requires |s.mem| == NP && |s.owner| == NP && d in s.spaces && SpaceOk(s.mem, s.owner, d, s.spaces[d])
    requires v in s.spaces[d].pages && UPAGE <= v
    ensures v / NSLOT in s.spaces[d].tabs && s.spaces[d].tabs[v / NSLOT] < NP && s.spaces[d].pages[v].frame < NP
    ensures var u := UnmapPage(s, d, v); SpaceOk(u.mem, u.owner, d, u.spaces[d])
  {
    var sp := s.spaces[d];
    var f := sp.pages[v].frame;
    var r := PushFree(s, f);
    assert s.owner[f] == Frm(d, v);
    var rest := sp.pages - {v};
    TablesHoldFrame(s.mem, s.owner, r.mem, d, sp);
    TablesOwnedFrame(s.owner, r.owner, d, sp.tabs);
    WritePteHolds(r.mem, r.owner, d, sp, v, rest);
    forall w | w in rest && UPAGE <= w
      ensures rest[w].frame < NP && r.owner[rest[w].frame] == Frm(d, w)
    {
      assert s.owner[sp.pages[w].frame] == Frm(d, w);
    }
  }

  lemma TablesHoldFrame(mem: seq<Page>, owner: seq<Owner>, mem': seq<Page>, d: nat, sp: Space)
    requires |mem| == |mem'| == NP && |owner| == NP
    requires TablesOwned(owner, d, sp.tabs) && TablesHold(mem, sp)
    requires forall p {:trigger mem'[p]} :: 0 <= p < NP && owner[p].Tab? && owner[p].dir == d ==> mem'[p] == mem[p]
    ensures TablesHold(mem', sp)
  {
    forall i | i in sp.tabs
      ensures sp.tabs[i] < NP && mem'[sp.tabs[i]] == mem[sp.tabs[i]]
    {
      assert owner[sp.tabs[i]] == Tab(d, i);
    }
  }
}
