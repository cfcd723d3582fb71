/** User memory through the loaded tables: stores by user programs, for which the hardware checks P, W and U, and
    bytes that the kernel reads there. */
module UserMode {
  import opened Memory
  import opened Paging
  import opened Unmapping
  import opened KernelMap
  import opened Virtual
  import opened Loading
  import opened Allocator
  import opened Vm
  import opened UserMemory
  import opened ProcTable
  import opened KernelMem
  import opened Files

  /** The bits a user-mode store needs in the entry. */
  predicate StoreAllowed(pte: word) {
    Present(pte) && pte / PTE_W % 2 == 1 && pte / PTE_U % 2 == 1
  }

  /** All three low bits: present, writable, user. */
  lemma StoreBits(pte: word)
    ensures StoreAllowed(pte) <==> pte % 8 == 7
  {
    var h := pte / 2;
    var k := h / 2;
    QuarterOf(pte);
    LowBits(k / 2, k % 2, h % 2, pte % 2);
  }

  lemma QuarterOf(n: nat)
    ensures n / 4 == n / 2 / 2
  {
  }

  lemma LowBits(q: nat, b2: nat, b1: nat, b0: nat)
    requires b0 < 2 && b1 < 2 && b2 < 2
    ensures (2 * (2 * (2 * q + b2) + b1) + b0) % 8 == 4 * b2 + 2 * b1 + b0
  {
  }

  /** The page of address a is mapped, and the user may write to it. */
  ghost predicate UserWritable(s: State, d: nat, a: nat) {
    UserAddr(s, d, a) && StoreAllowed(PteFlagsWord(s.spaces[d].pages[a / PAGESIZE].flags))
  }

  function PteFlagsWord(flags: nat): word {
    if flags < PAGESIZE then flags else 0
  }

  /** The permission bits of an entry are those of its flags. */
  lemma EntryBits(e: Entry)
    requires EntryOk(e)
    ensures StoreAllowed(Encode(e)) <==> StoreAllowed(PteFlagsWord(e.flags))
  {
    BitAbove(e.frame, e.flags);
  }

  lemma BitAbove(f: nat, r: nat)
    requires r < PAGESIZE
    ensures (f * PAGESIZE + r) % 2 == r % 2
    ensures (f * PAGESIZE + r) / 2 % 2 == r / 2 % 2
    ensures (f * PAGESIZE + r) / 4 % 2 == r / 4 % 2
  {
    StaysOdd(f, r);
    ShiftBy(f * 2048, r, 2);
    ShiftBy(f * 1024, r, 4);
    EvenPlus(f * 1024, r / 2);
    EvenPlus(f * 512, r / 4);
  }

  lemma ShiftBy(q: nat, r: nat, k: nat)
    requires k == 2 || k == 4
    ensures (q * k + r) / k == q + r / k
  {
  }

  /** No page of the kernel half is open to the user. */
  lemma KernelClosed(sp: Space, rodata: nat, v: nat)
    requires KernelHalf(sp, rodata) && v < UPAGE && v in sp.pages
    ensures !StoreAllowed(PteFlagsWord(sp.pages[v].flags))
  {
  }

  /** What the loaded tables say about a page of the running process. */
  lemma LoadedSpace(kend: nat, rodata: nat, k: KState, s: State)
    requires Steady(kend, rodata, k, s) && Awake(k)
    ensures k.cr3 % PAGESIZE == 0 && k.cr3 / PAGESIZE in s.spaces && KernelHalf(s.spaces[k.cr3 / PAGESIZE], rodata)
  {
    hide Good, FilesCounted, KernelHalf, UserRegion;
    assert SlotSane(k.proc[k.procp]) && SlotMem(s, rodata, k.procp, k.proc[k.procp]);
  }

  /** The kernel half in every directory that can be loaded, as the words of its page tables: every page is mapped to
      itself and closed to the user, and text and read-only data, from 1 MB to rodata_end, are not writable. */
  lemma KernelWords(kend: nat, rodata: nat, s: State, d: nat, v: nat)
    requires d in s.spaces && KernelHalf(s.spaces[d], rodata) && v < NP && Good(kend, s)
    ensures v / NSLOT in s.spaces[d].tabs && s.spaces[d].tabs[v / NSLOT] < |s.mem| && d < |s.mem|
    ensures s.mem[d][v / NSLOT] == s.spaces[d].tabs[v / NSLOT] * 0x1000 + 7
    ensures s.mem[s.spaces[d].tabs[v / NSLOT]][v % NSLOT] == v * 0x1000 + if 0x100 <= v < rodata then 1 else 3
  {
    hide Good;
    ValidSizes(kend, s);
    DirectoryWord(kend, s, d, v / NSLOT);
    EntryWord(kend, s, d, v);
  }

  /** Contents of pages do not concern the kernel's own account. */
  lemma SteadyWritten(kend: nat, rodata: nat, k: KState, s: State, t: State)
    requires Steady(kend, rodata, k, s) && t == s.(mem := t.mem) && Good(kend, t)
    ensures Steady(kend, rodata, k, t)
  {
    hide Good, FilesCounted, SpaceComplete;
    forall i | 0 <= i < NPROC
      ensures SlotMem(t, rodata, i, k.proc[i])
    {
      assert SlotMem(s, rodata, i, k.proc[i]);
    }
  }

  /** The running program stores a byte. Either the tables allow it and exactly that byte of its own memory
      changes, or it faults and nothing changes; the kernel's invariant holds either way. */
  method UserStore(k: Kernel, va: word, b: byte) returns (done: bool)
    requires k.Valid() && Awake(k.KView())
    modifies k.m.mem, k.m`coremap, k.m`free, k.m`owner, k.m`spaces
    ensures k.Valid()
    ensures done <==> UserWritable(old(k.m.View()), k.cr3 / PAGESIZE, va)
    ensures done ==> Wrote(k.cr3 / PAGESIZE, old(k.m.View()), k.m.View(), va, [b])
    ensures !done ==> k.m.View() == old(k.m.View())
  {
    hide Good, Steady, KernelHalf, Wrote, UserAddr, StoreAllowed, UserByte;
    ghost var s, d, v := k.m.View(), k.cr3 / PAGESIZE, va / PAGESIZE;
    LoadedSpace(k.m.kend, k.m.rodata, k.KView(), s);
    var pte := WalkPgdir(k.m, k.cr3, va, false);
    StoreCheck(k.m.kend, k.m.rodata, s, d, va);
    if pte == 0 {
      return false;
    }
    if !StoreAllowed(Load(k.m.mem, pte)) {
      return false;
    }
    var pa := PteAddr(Load(k.m.mem, pte));
    StoreEffect(k.m.kend, s, d, va, b);
    k.m.mem[pa / PAGESIZE] := PutBytes(k.m.mem[pa / PAGESIZE], va % PAGESIZE, [b]);
    SteadyWritten(k.m.kend, k.m.rodata, k.KView(), s, k.m.View());
    done := true;
  }

  /** The check on the entry in memory is the check on the abstract page. */
  lemma StoreCheck(kend: nat, rodata: nat, s: State, d: nat, va: word)
    requires Good(kend, s) && d in s.spaces && KernelHalf(s.spaces[d], rodata)
    ensures var v := va / PAGESIZE;
            if v / NSLOT in s.spaces[d].tabs then
              && s.spaces[d].tabs[v / NSLOT] < |s.mem|
              && var pte := s.mem[s.spaces[d].tabs[v / NSLOT]][v % NSLOT];
              && (StoreAllowed(pte) <==> UserWritable(s, d, va))
              && (StoreAllowed(pte) ==> UserAddr(s, d, va) && s.spaces[d].pages[v].frame < |s.mem|
                                        && PteAddr(pte) == s.spaces[d].pages[v].frame * PAGESIZE)
            else !UserWritable(s, d, va)
  {
    hide Good, KernelHalf, StoreAllowed;
    var v := va / PAGESIZE;
    ValidSizes(kend, s);
    if v / NSLOT in s.spaces[d].tabs {
      PteOfPage(kend, s, d, v);
      if v in s.spaces[d].pages {
        EntryWord(kend, s, d, v);
        EntryBits(s.spaces[d].pages[v]);
        if v < UPAGE {
          KernelClosed(s.spaces[d], rodata, v);
        } else {
          FrameOwner(kend, s, d, v);
        }
      } else {
        NotPresent(s.mem[s.spaces[d].tabs[v / NSLOT]][v % NSLOT]);
      }
    } else {
      NoTableNoPages(kend, s, d, v);
    }
  }

  lemma NotPresent(pte: word)
    ensures !Present(pte) ==> !StoreAllowed(pte)
  {
  }

  lemma StoreEffect(kend: nat, s: State, d: nat, va: nat, b: byte)
    requires Good(kend, s) && UserAddr(s, d, va)
    ensures var t := WriteChunk(s, d, va, [b]); Good(kend, t) && Wrote(d, s, t, va, [b]) && t == s.(mem := t.mem)
  {
    hide Good, Wrote;
    ValidSizes(kend, s);
    WroteNothing(d, s, va);
    assert [] + [b] == [b];
    WroteNext(kend, d, s, s, WriteChunk(s, d, va, [b]), va, [], [b]);
  }

  /** What the running process writes, no other process sees. */
  lemma OthersUndisturbed(kend: nat, rodata: nat, k: KState, s: State, t: State, va: nat, data: seq<byte>, i: nat,
                          a: nat)
    requires Steady(kend, rodata, k, s) && Wrote(k.cr3 / PAGESIZE, s, t, va, data)
    requires i < |k.proc| && i != k.procp && k.proc[i].pgdir != 0 && UserAddr(s, k.proc[i].pgdir / PAGESIZE, a)
    ensures UserAddr(t, k.proc[i].pgdir / PAGESIZE, a)
    ensures UserByte(t, k.proc[i].pgdir / PAGESIZE, a) == UserByte(s, k.proc[i].pgdir / PAGESIZE, a)
  {
    hide Good, Wrote, UserAddr, UserByte, FilesCounted, SpaceComplete;
    assert SlotSane(k.proc[k.procp]);
    OtherDirs(k.proc, s, rodata, k.procp);
    Isolation(kend, k.cr3 / PAGESIZE, k.proc[i].pgdir / PAGESIZE, s, t, va, data, a);
  }

  // ---- looking at user memory through the tables ---------------------------------------------

  /** What a walk of the tables in memory says about address a. */
  lemma WalkSays(kend: nat, s: State, d: nat, a: word)
    requires Good(kend, s) && d in s.spaces && UPAGE <= a / PAGESIZE
    ensures var v := a / PAGESIZE;
            if v / NSLOT in s.spaces[d].tabs then
              && s.spaces[d].tabs[v / NSLOT] < |s.mem|
              && var pte := s.mem[s.spaces[d].tabs[v / NSLOT]][v % NSLOT];
              && (Present(pte) <==> UserAddr(s, d, a))
              && (Present(pte) ==>
                    s.spaces[d].pages[v].frame < |s.mem| && PteAddr(pte) == s.spaces[d].pages[v].frame * PAGESIZE)
            else !UserAddr(s, d, a)
  {
    hide Good, Present, PteAddr;
    var v := a / PAGESIZE;
    ValidSizes(kend, s);
    if v / NSLOT in s.spaces[d].tabs {
      PteOfPage(kend, s, d, v);
      if v in s.spaces[d].pages {
        FrameOwner(kend, s, d, v);
      }
    } else {
      NoTableNoPages(kend, s, d, v);
    }
  }

  /** Load one byte of user memory. */
  method LoadByte(m: Machine, pgdir: word, a: word) returns (b: byte)
    requires m.Valid() && IsDir(m, pgdir) && UserAddr(m.View(), pgdir / PAGESIZE, a) // else a page fault
    modifies m.mem, m`coremap, m`free, m`owner, m`spaces
    ensures m.View() == old(m.View()) && b == UserByte(old(m.View()), pgdir / PAGESIZE, a)
  {
    hide Good, Present, PteAddr;
    WalkSays(m.kend, m.View(), pgdir / PAGESIZE, a);
    var pte := WalkPgdir(m, pgdir, a, false);
    var pa := PteAddr(Load(m.mem, pte));
    b := ByteAt(m.mem[pa / PAGESIZE], a % PAGESIZE);
  }

  /** Is all of [va, va + len) mapped user memory? */
  method Mapped(m: Machine, pgdir: word, va: word, len: nat) returns (ok: bool)
    requires m.Valid() && IsDir(m, pgdir) && KERNEND <= va && va + len <= USEREND
    modifies m.mem, m`coremap, m`free, m`owner, m`spaces
    ensures m.View() == old(m.View()) && (ok <==> UserRange(m.View(), pgdir / PAGESIZE, va, len))
  {
    hide Good, Present, UserAddr;
    for i := 0 to len
      invariant m.View() == old(m.View()) && UserRange(m.View(), pgdir / PAGESIZE, va, i)
    {
      WalkSays(m.kend, m.View(), pgdir / PAGESIZE, va + i);
      var pte := WalkPgdir(m, pgdir, va + i, false);
      if pte == 0 {
        return false;
      }
      if !Present(Load(m.mem, pte)) {
        return false;
      }
    }
    ok := true;
  }
}
