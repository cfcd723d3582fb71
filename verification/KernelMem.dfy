/** How the system calls keep every page accounted for: one lemma per way memory changes hands. */
module KernelMem {
  import opened Memory
  import opened Paging
  import opened Steps
  import opened Mapping
  import opened Unmapping
  import opened KernelMap
  import opened Growing
  import opened Forking
  import opened Loading
  import opened Vm
  import opened ProcTable

  // ---- kernel stacks -------------------------------------------------------------------------

  /** A page taken from the list and cleared, as the kernel stack of slot i. */
  function TakeStack(s: State, i: nat): State
    requires |s.mem| == NP && |s.owner| == NP && s.free != [] && s.free[|s.free| - 1] < NP && s.head / PAGESIZE < NP
  {
    var f := s.free[|s.free| - 1];
    var t := PopFree(s, 0);
    t.(mem := t.mem[f := ZeroPage()], owner := t.owner[f := KStack(i)])
  }

  /** Handing a page in hand over to a process as its stack, or taking it back, breaks nothing. */
  lemma StackOwnerKeeps(kend: nat, s: State, f: nat, o: Owner, page: Page)
    requires Good(kend, s) && f < NP && (s.owner[f].Held? || s.owner[f].KStack?) && (o.Held? || o.KStack?)
    ensures Good(kend, s.(owner := s.owner[f := o], mem := s.mem[f := page]))
  {
    var t := s.(owner := s.owner[f := o], mem := s.mem[f := page]);
    AllocFrame(kend, s, t);
    forall e | e in t.spaces
      ensures SpaceOk(t.mem, t.owner, e, t.spaces[e])
    {
      SpaceFrame(s, t, e, s.spaces[e]);
    }
    forall p | 0 <= p < NP
      ensures Backs(t.owner[p], p, t.spaces)
    {
      assert Backs(s.owner[p], p, s.spaces);
    }
  }

  lemma TakeStackKeeps(kend: nat, s: State, i: nat)
    requires Good(kend, s) && s.free != []
    ensures |s.mem| == NP && |s.owner| == NP && s.head / PAGESIZE < NP && 0 < s.free[|s.free| - 1] < NP
    ensures s.owner[s.free[|s.free| - 1]].Free? && Good(kend, TakeStack(s, i))
  {
    TakeAndFillKeeps(kend, s, 0, ZeroPage());
    PopFreeKeeps(kend, s, 0);
    StackOwnerKeeps(kend, PopFree(s, 0), s.free[|s.free| - 1], KStack(i), ZeroPage());
  }

  /** kfree of a kernel stack. */
  lemma DropStackKeeps(kend: nat, s: State, f: nat)
    requires Good(kend, s) && f < NP && s.owner[f].KStack?
    ensures kend <= f && Good(kend, PushFree(s, f)) && |s.mem| == |s.owner| == NP
  {
    StackOwnerKeeps(kend, s, f, Held(0), s.mem[f]);
    var t := s.(owner := s.owner[f := Held(0)], mem := s.mem[f := s.mem[f]]);
    PushFreeKeeps(kend, t, 0, f);
    assert PushFree(t, f) == PushFree(s, f) by {
      assert t.mem[f := LinkPage(s.head)] == s.mem[f := LinkPage(s.head)];
      assert t.owner[f := Free(|s.free|)] == s.owner[f := Free(|s.free|)];
    }
  }

  /** A slot without a stack owns no stack. */
  lemma NoStack(proc: seq<Proc>, s: State, i: nat)
    requires OwnersMem(proc, s) && i < |proc| && proc[i].kstack == 0 && |s.owner| == NP && s.owner[0] == Fixed
    ensures forall p {:trigger s.owner[p]} :: 0 <= p < NP ==> s.owner[p] != KStack(i)
  {
  }

  // ---- one slot changes ----------------------------------------------------------------------

  /** The slots other than i find their stack and address space as they were, and slot i is in order. */
  lemma SlotsMemStep(proc: seq<Proc>, s: State, t: State, rodata: nat, i: nat, p: Proc)
    requires |s.owner| == |t.owner| == NP && SlotsMem(proc, s, rodata) && i < |proc| && SlotMem(t, rodata, i, p)
    requires forall j :: 0 <= j < |proc| && j != i && proc[j].pgdir != 0 && proc[j].pgdir / PAGESIZE in s.spaces ==>
               proc[j].pgdir / PAGESIZE in t.spaces
               && t.spaces[proc[j].pgdir / PAGESIZE] == s.spaces[proc[j].pgdir / PAGESIZE]
    requires forall q :: 0 <= q < NP && s.owner[q].KStack? && s.owner[q].slot != i ==> t.owner[q] == s.owner[q]
    ensures SlotsMem(proc[i := p], t, rodata)
  {
    hide SpaceComplete;
    var proc' := proc[i := p];
    forall j | 0 <= j < |proc'|
      ensures SlotMem(t, rodata, j, proc'[j])
    {
      assert SlotMem(s, rodata, j, proc[j]);
    }
  }

  lemma DistinctStep(proc: seq<Proc>, i: nat, p: Proc)
    requires DirsDistinct(proc) && i < |proc|
    requires p.pgdir == 0 || forall j :: 0 <= j < |proc| && j != i ==> proc[j].pgdir != p.pgdir
    ensures DirsDistinct(proc[i := p])
  {
    var proc' := proc[i := p];
    forall a, b | 0 <= a < |proc'| && 0 <= b < |proc'| && a != b && proc'[a].pgdir != 0
      ensures proc'[a].pgdir != proc'[b].pgdir
    {
      assert a != i ==> proc'[a] == proc[a];
      assert b != i ==> proc'[b] == proc[b];
    }
  }

  /** Every address space but the one slot i gives up keeps its home; the one slot i takes is at home there. */
  lemma HomesStep(proc: seq<Proc>, spaces: map<nat, Space>, spaces': map<nat, Space>, i: nat, p: Proc)
    requires Homes(proc, spaces) && i < |proc|
    requires forall d :: d in spaces' ==>
              d > 0 && (p.pgdir == d * PAGESIZE || (d in spaces && proc[i].pgdir != d * PAGESIZE))
    ensures Homes(proc[i := p], spaces')
  {
    var proc' := proc[i := p];
    forall d | d in spaces'
      ensures d > 0 && HasHome(proc', d)
    {
      if p.pgdir == d * PAGESIZE {
        assert proc'[i].pgdir == d * PAGESIZE;
      } else {
        var j :| 0 <= j < |proc| && proc[j].pgdir == d * PAGESIZE;
        assert proc'[j].pgdir == d * PAGESIZE;
      }
    }
  }

  /** Changes to scheduling state and descriptors do not concern memory. */
  lemma MemInvSame(proc: seq<Proc>, proc': seq<Proc>, s: State, rodata: nat)
    requires MemInv(proc, s, rodata) && |proc'| == |proc|
    requires forall i :: 0 <= i < |proc| ==>
               proc'[i].pgdir == proc[i].pgdir && proc'[i].kstack == proc[i].kstack && proc'[i].size == proc[i].size
    ensures MemInv(proc', s, rodata)
  {
    hide SpaceComplete;
    forall i | 0 <= i < |proc'|
      ensures SlotMem(s, rodata, i, proc'[i])
    {
      assert SlotMem(s, rodata, i, proc[i]);
    }
    forall d | d in s.spaces
      ensures d > 0 && HasHome(proc', d)
    {
      var j :| 0 <= j < |proc| && proc[j].pgdir == d * PAGESIZE;
      assert proc'[j].pgdir == d * PAGESIZE;
    }
  }

  // ---- fork ----------------------------------------------------------------------------------

  /** palloc has given slot i a stack. */
  lemma MemInvAlloc(kend: nat, proc: seq<Proc>, s: State, rodata: nat, i: nat, p: Proc)
    requires MemInv(proc, s, rodata) && i < NPROC && proc[i].pgdir == 0 && proc[i].kstack == 0
    requires s.free != [] && p.pgdir == 0 && p.kstack == s.free[|s.free| - 1] * PAGESIZE && Good(kend, s)
    ensures |s.mem| == NP && s.head / PAGESIZE < NP && s.free[|s.free| - 1] < NP
    ensures MemInv(proc[i := p], TakeStack(s, i), rodata)
  {
    hide Good, SpaceComplete, Homes, DirsDistinct, SlotsMem;
    TakeStackKeeps(kend, s, i);
    FirstPageFixed(kend, s);
    SlotsMemStep(proc, s, TakeStack(s, i), rodata, i, p);
    DistinctStep(proc, i, p);
    HomesPositive(proc, s.spaces);
    HomesStep(proc, s.spaces, s.spaces, i, p);
  }

  lemma HomesPositive(proc: seq<Proc>, spaces: map<nat, Space>)
    requires Homes(proc, spaces)
    ensures forall d :: d in spaces ==> d > 0
  {
  }

  lemma FirstPageFixed(kend: nat, s: State)
    requires Good(kend, s)
    ensures |s.owner| == NP && s.owner[0] == Fixed
  {
  }

  /** Slot i, which had only a stack, gets a new address space. */
  lemma MemInvBuilt(proc: seq<Proc>, s: State, t: State, rodata: nat, i: nat, p: Proc)
    requires MemInv(proc, s, rodata) && i < NPROC && proc[i].pgdir == 0 && p.kstack == proc[i].kstack
    requires p.pgdir % PAGESIZE == 0 && p.pgdir / PAGESIZE > 0 && KERNEND + p.size <= USEREND
    requires var e := p.pgdir / PAGESIZE;
             && OnlyInto(e, s, t) && e !in s.spaces && e in t.spaces && t.spaces == s.spaces[e := t.spaces[e]]
             && KernelHalf(t.spaces[e], rodata) && UserRegion(t.spaces[e], UPAGE + CeilPage(p.size))
    ensures MemInv(proc[i := p], t, rodata)
  {
    hide KernelHalf, UserRegion, Homes, DirsDistinct, SlotsMem;
    var e := p.pgdir / PAGESIZE;
    DirNotShared(proc, s, rodata, i, p.pgdir);
    SlotOf(proc, s, rodata, i);
    SlotsMemStep(proc, s, t, rodata, i, p);
    DistinctStep(proc, i, p);
    HomesPositive(proc, s.spaces);
    HomesStep(proc, s.spaces, t.spaces, i, p);
  }

  /** copyuvm succeeded: the new slot gets the copy. */
  lemma MemInvForked(proc: seq<Proc>, s: State, t: State, rodata: nat, d: nat, i: nat, p: Proc)
    requires MemInv(proc, s, rodata) && i < NPROC && proc[i].pgdir == 0 && p.kstack == proc[i].kstack
    requires p.pgdir % PAGESIZE == 0 && p.pgdir / PAGESIZE > 0 && KERNEND + p.size <= USEREND
    requires CopyOf(s, t, d, p.pgdir / PAGESIZE, rodata, CeilPage(p.size))
    ensures MemInv(proc[i := p], t, rodata)
  {
    hide MemInv, KernelHalf, Holds, UserPagesThere, OnlyInto;
    MemInvBuilt(proc, s, t, rodata, i, p);
  }

  /** A directory that is no address space yet is no process's. */
  lemma DirNotShared(proc: seq<Proc>, s: State, rodata: nat, i: nat, pgdir: word)
    requires |s.owner| == NP && SlotsMem(proc, s, rodata) && pgdir != 0 && pgdir / PAGESIZE !in s.spaces
    ensures forall j :: 0 <= j < |proc| ==> proc[j].pgdir != pgdir
  {
    forall j | 0 <= j < |proc|
      ensures proc[j].pgdir != pgdir
    {
      assert SlotMem(s, rodata, j, proc[j]);
    }
  }

  lemma SlotOf(proc: seq<Proc>, s: State, rodata: nat, i: nat)
    requires |s.owner| == NP && SlotsMem(proc, s, rodata) && i < |proc|
    ensures SlotMem(s, rodata, i, proc[i])
  {
  }

  /** A failed copy, or a failed exec: only kernel tables were left behind. */
  lemma MemInvLeftBehind(proc: seq<Proc>, s: State, t: State, rodata: nat)
    requires MemInv(proc, s, rodata) && LeftBehind(s, t)
    ensures MemInv(proc, t, rodata)
  {
    hide SpaceComplete;
    forall j | 0 <= j < NPROC
      ensures SlotMem(t, rodata, j, proc[j])
    {
      assert SlotMem(s, rodata, j, proc[j]);
    }
  }

  // ---- pfree ---------------------------------------------------------------------------------

  /** The stack of slot i is freed; the slot has no address space any more. */
  lemma MemInvDropStack(proc: seq<Proc>, s: State, rodata: nat, i: nat, p: Proc)
    requires MemInv(proc, s, rodata) && i < NPROC && proc[i].pgdir == 0 && proc[i].kstack != 0
    requires p.pgdir == 0 && p.kstack == 0 && |s.mem| == NP
    ensures proc[i].kstack / PAGESIZE < NP && s.owner[proc[i].kstack / PAGESIZE] == KStack(i)
    ensures proc[i].kstack % PAGESIZE == 0
    ensures MemInv(proc[i := p], PushFree(s, proc[i].kstack / PAGESIZE), rodata)
  {
    hide SpaceComplete, Homes, DirsDistinct, SlotsMem;
    SlotOf(proc, s, rodata, i);
    SlotsMemStep(proc, s, PushFree(s, proc[i].kstack / PAGESIZE), rodata, i, p);
    DistinctStep(proc, i, p);
    HomesPositive(proc, s.spaces);
    HomesStep(proc, s.spaces, s.spaces, i, p);
  }

  /** The address space of slot i is dismantled. */
  lemma MemInvDropSpace(proc: seq<Proc>, s: State, t: State, rodata: nat, i: nat, p: Proc)
    requires MemInv(proc, s, rodata) && i < NPROC && proc[i].pgdir != 0 && p.pgdir == 0 && p.kstack == proc[i].kstack
    requires Dismantled(proc[i].pgdir / PAGESIZE, s, t)
    ensures MemInv(proc[i := p], t, rodata)
  {
    hide SpaceComplete, Homes, SlotsMem;
    SlotOf(proc, s, rodata, i);
    OtherDirs(proc, s, rodata, i);
    SlotsMemStep(proc, s, t, rodata, i, p);
    DistinctStep(proc, i, p);
    HomesPositive(proc, s.spaces);
    HomesStep(proc, s.spaces, t.spaces, i, p);
  }

  /** Two processes' directories are different pages. */
  lemma OtherDirs(proc: seq<Proc>, s: State, rodata: nat, i: nat)
    requires |s.owner| == NP && SlotsMem(proc, s, rodata) && DirsDistinct(proc) && i < |proc| && proc[i].pgdir != 0
    ensures forall j :: 0 <= j < |proc| && j != i && proc[j].pgdir != 0 ==>
              proc[j].pgdir / PAGESIZE != proc[i].pgdir / PAGESIZE
  {
    assert SlotMem(s, rodata, i, proc[i]);
    forall j | 0 <= j < |proc| && j != i && proc[j].pgdir != 0
      ensures proc[j].pgdir / PAGESIZE != proc[i].pgdir / PAGESIZE
    {
      assert SlotMem(s, rodata, j, proc[j]);
    }
  }

  // ---- exec ----------------------------------------------------------------------------------

  /** The new address space e takes the place of the old one of slot i, which is then dismantled. */
  lemma MemInvExec(proc: seq<Proc>, s: State, t: State, u: State, rodata: nat, i: nat, p: Proc)
    requires MemInv(proc, s, rodata) && i < NPROC && proc[i].pgdir != 0 && p.kstack == proc[i].kstack
    requires p.pgdir % PAGESIZE == 0 && p.pgdir / PAGESIZE > 0 && KERNEND + p.size <= USEREND
    requires NewSpace(s, t, p.pgdir / PAGESIZE, rodata, UPAGE + CeilPage(p.size))
    requires Dismantled(proc[i].pgdir / PAGESIZE, t, u)
    ensures MemInv(proc[i := p], u, rodata)
  {
    hide KernelHalf, UserTabs, ForkCost, Homes, SlotsMem, UserRegion;
    SlotOf(proc, s, rodata, i);
    OtherDirs(proc, s, rodata, i);
    DirNotShared(proc, s, rodata, i, p.pgdir);
    ExecOwners(proc, s, t, u, i, p, proc[i].pgdir / PAGESIZE, p.pgdir / PAGESIZE);
    ExecSlots(proc, s, t, u, rodata, i, p);
    DistinctStep(proc, i, p);
    HomesPositive(proc, s.spaces);
    HomesStep(proc, s.spaces, u.spaces, i, p);
  }

  lemma ExecSlots(proc: seq<Proc>, s: State, t: State, u: State, rodata: nat, i: nat, p: Proc)
    requires |s.owner| == |u.owner| == NP && SlotsMem(proc, s, rodata) && i < |proc| && SlotMem(s, rodata, i, proc[i])
    requires p.kstack == proc[i].kstack && p.pgdir % PAGESIZE == 0 && KERNEND + p.size <= USEREND
    requires NewSpace(s, t, p.pgdir / PAGESIZE, rodata, UPAGE + CeilPage(p.size))
    requires u.spaces == t.spaces - {proc[i].pgdir / PAGESIZE} && proc[i].pgdir != 0
    requires forall j :: 0 <= j < |proc| && j != i && proc[j].pgdir != 0 ==>
        proc[j].pgdir / PAGESIZE != proc[i].pgdir / PAGESIZE
    requires forall q :: 0 <= q < NP && s.owner[q].KStack? ==> u.owner[q] == s.owner[q]
    ensures SlotsMem(proc[i := p], u, rodata)
  {
    hide KernelHalf, UserTabs, ForkCost, UserRegion, SlotsMem, OnlyInto;
    SlotsMemStep(proc, s, u, rodata, i, p);
  }

  lemma ExecOwners(proc: seq<Proc>, s: State, t: State, u: State, i: nat, p: Proc, d: nat, e: nat)
    requires OnlyInto(e, s, t) && Dismantled(d, t, u) && OwnersMem(proc, s) && i < |proc| && p.kstack == proc[i].kstack
    ensures OwnersMem(proc[i := p], u)
    ensures forall q :: 0 <= q < NP && s.owner[q].KStack? ==> u.owner[q] == s.owner[q]
  {
  }
}
