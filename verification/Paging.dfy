/** Two-level x86 page tables, page ownership, and the invariant that ties both to physical memory.
    Addresses are numbers below 2^32; a page or frame number is an address divided by PAGESIZE. */
module Paging {
  import opened Memory

  // Memory map (include/mm/map.h), in bytes and in pages.
  const EXTMEM: nat := 0x10_0000
  const KERNEND: nat := 0x4000_0000
  const USEREND: nat := 0xFFC0_0000
  const MEMSIZE: nat := 0x2000_0000
  const NP: nat := 0x2_0000       // MEMSIZE / PAGESIZE
  const EXTPAGE: nat := 0x100     // EXTMEM / PAGESIZE
  const UPAGE: nat := 0x4_0000    // KERNEND / PAGESIZE: first user page
  const UTOP: nat := 0xF_FC00     // USEREND / PAGESIZE
  const NSLOT: nat := 1024        // NPDENT and NPTENT
  const USLOT: nat := 256         // first directory slot of user space

  // Page table entry flags.
  const PTE_P: nat := 1
  const PTE_W: nat := 2
  const PTE_U: nat := 4

  /** PGROUNDUP and PGROUNDDOWN on uint32_t, with the wrap-around the addition has in C. */
  function RoundDown(a: word): word { a / PAGESIZE * PAGESIZE }
  function RoundUp(a: word): word { RoundDown((a + PAGESIZE - 1) % 0x1_0000_0000) }

  /** PDX and PTX, the shift and mask written as division and remainder. */
  function Pdx(va: word): nat { va / 0x40_0000 }
  function Ptx(va: word): nat { va / PAGESIZE % NSLOT }

  /** PGADDR: (d << 22 | t << 12 | o) truncated to 32 bits. */
  function PgAddr(d: nat, t: nat, o: nat): word
    requires t < NSLOT && o < PAGESIZE
  {
    (d % NSLOT) * 0x40_0000 + t * PAGESIZE + o
  }

  function PteAddr(pte: word): word { pte - pte % PAGESIZE }
  function PteFlags(pte: word): nat { pte % PAGESIZE }
  predicate Present(pte: word) { pte % 2 == 1 }

  /** flags | PTE_P */
  function WithP(flags: nat): nat { if flags % 2 == 1 then flags else flags + 1 }
  /** flags & ~PTE_U */
  function WithoutU(flags: nat): nat { if flags / PTE_U % 2 == 1 then flags - PTE_U else flags }

  /** A present page table entry. */
  datatype Entry = Entry(frame: nat, flags: nat)

  predicate EntryOk(e: Entry) {
    e.frame < NP && e.flags < PAGESIZE && e.flags % 2 == 1
  }

  function Encode(e: Entry): word
    requires EntryOk(e)
  {
    e.frame * PAGESIZE + e.flags
  }

  /** The word at page table position v / NSLOT, v % NSLOT when the address space maps `pages`. */
  function PteWord(pages: map<nat, Entry>, v: nat): word {
    if v in pages && EntryOk(pages[v]) then Encode(pages[v]) else 0
  }

  /** An address space: its page tables by directory slot, and its translation by page number. */
  datatype Space = Space(tabs: map<nat, nat>, pages: map<nat, Entry>)

  const EmptySpace := Space(map[], map[])

  /** What a physical page is used for; the argument says by whom. A page has one owner. */
  datatype Owner =
    | Fixed                    // below kernel_end: not managed by the allocator
    | Free(pos: nat)           // on the free list, pos pages from its end
    | Held(dir: nat)           // taken by a kernel function that is working on directory `dir`
    | Dir(dir: nat)            // page directory
    | Tab(dir: nat, slot: nat) // page table in directory slot `slot`
    | Frm(dir: nat, v: nat)    // user frame behind page number v
    | KStack(slot: nat)        // kernel stack of a process table slot
    | Retired                  // a kernel page table that freevm left behind

  /** Physical memory, the head of the free list, and the ghost account of who owns what. */
  datatype State = State(mem: seq<Page>, head: word, free: seq<nat>, owner: seq<Owner>, spaces: map<nat, Space>)

  // ---- the free list -------------------------------------------------------------------------

  /** A free page is clear except for the link in its first word. */
  function LinkPage(next: word): Page {
    ZeroPage()[0 := next]
  }

  /** coremap and the links run through exactly the pages owned by the free list, once each. */
  ghost predicate AllocOk(kend: nat, s: State) {
    && |s.mem| == NP && |s.owner| == NP && 0 < kend <= NP
    && s.head == Link(s.free, |s.free|)
    && (forall p :: 0 <= p < NP ==> (s.owner[p] == Fixed <==> p < kend))
    && FreeOwned(s.owner, s.free)
    && FreeLinked(s.mem, s.free)
  }

  /** The word that points at the free pages below position k: the page at k - 1, or null. */
  function Link(free: seq<nat>, k: nat): word
    requires k <= |free|
  {
    if k == 0 || free[k - 1] >= NP then 0 else free[k - 1] * PAGESIZE
  }

  ghost predicate FreeOwned(owner: seq<Owner>, free: seq<nat>)
    requires |owner| == NP
  {
    && (forall k :: 0 <= k < |free| ==> free[k] < NP && owner[free[k]] == Free(k))
    && (forall p {:trigger owner[p].Free?} :: 0 <= p < NP && owner[p].Free? ==>
        owner[p].pos < |free| && free[owner[p].pos] == p)
  }

  ghost predicate FreeLinked(mem: seq<Page>, free: seq<nat>)
    requires |mem| == NP
  {
    forall k {:trigger mem[free[k]]} :: 0 <= k < |free| && free[k] < NP ==> mem[free[k]] == LinkPage(Link(free, k))
  }

  // ---- address spaces ------------------------------------------------------------------------

  /** Directory d and its tables hold exactly what sp says, and the pages used are owned by d. */
  ghost predicate SpaceOk(mem: seq<Page>, owner: seq<Owner>, d: nat, sp: Space)
    requires |mem| == NP && |owner| == NP
  {
    && d < NP && owner[d] == Dir(d)
    && TablesOwned(owner, d, sp.tabs)
    && DirectoryHolds(mem[d], sp.tabs)
    && PagesSane(sp)
    && TablesHold(mem, sp)
    && FramesOwned(owner, d, sp.pages)
  }

  ghost predicate TablesOwned(owner: seq<Owner>, d: nat, tabs: map<nat, nat>)
    requires |owner| == NP
  {
    forall i :: i in tabs ==> i < NSLOT && 0 < tabs[i] < NP && owner[tabs[i]] == Tab(d, i)
  }

  ghost predicate DirectoryHolds(dir: Page, tabs: map<nat, nat>) {
    forall i :: 0 <= i < NSLOT ==> dir[i] == (if i in tabs then tabs[i] * PAGESIZE + 7 else 0)
  }

  ghost predicate PagesSane(sp: Space) {
    forall v :: v in sp.pages ==> v < UTOP && v / NSLOT in sp.tabs && EntryOk(sp.pages[v])
  }

  ghost predicate TablesHold(mem: seq<Page>, sp: Space)
    requires |mem| == NP
  {
    forall i, j :: i in sp.tabs && 0 <= j < NSLOT ==>
      sp.tabs[i] < NP && mem[sp.tabs[i]][j] == PteWord(sp.pages, i * NSLOT + j)
  }

  ghost predicate FramesOwned(owner: seq<Owner>, d: nat, pages: map<nat, Entry>)
    requires |owner| == NP
  {
    forall v :: v in pages && UPAGE <= v ==> pages[v].frame < NP && owner[pages[v].frame] == Frm(d, v)
  }

  /** Every page that claims to be part of an address space is one. */
  ghost predicate Backed(owner: seq<Owner>, spaces: map<nat, Space>) {
    forall p :: 0 <= p < |owner| ==> Backs(owner[p], p, spaces)
  }

  ghost predicate Backs(o: Owner, p: nat, spaces: map<nat, Space>) {
    match o
    case Dir(d) => d == p && d in spaces
    case Tab(d, i) => d in spaces && i in spaces[d].tabs && spaces[d].tabs[i] == p
    case Frm(d, v) => d in spaces && UPAGE <= v && v in spaces[d].pages && spaces[d].pages[v].frame == p
    case _ => true
  }

  ghost predicate SpacesOk(s: State)
    requires |s.mem| == NP && |s.owner| == NP
  {
    forall d :: d in s.spaces ==> SpaceOk(s.mem, s.owner, d, s.spaces[d])
  }

  /** The invariant of the memory subsystem. */
  ghost predicate Good(kend: nat, s: State) {
    AllocOk(kend, s) && SpacesOk(s) && Backed(s.owner, s.spaces)
  }

  // ---- single steps on the state -------------------------------------------------------------

  function PopFree(s: State, who: nat): State
    requires |s.owner| == NP && s.free != [] && s.free[|s.free| - 1] < NP
    requires s.head / PAGESIZE < |s.mem|
  {
    var p := s.free[|s.free| - 1];
    s.(free := s.free[..|s.free| - 1], owner := s.owner[p := Held(who)], head := s.mem[s.head / PAGESIZE][0])
  }

  function PushFree(s: State, p: nat): State
    requires |s.mem| == NP && |s.owner| == NP && p < NP
  {
    s.(mem := s.mem[p := LinkPage(s.head)], owner := s.owner[p := Free(|s.free|)],
       free := s.free + [p], head := p * PAGESIZE)
  }

  lemma PopFreeKeepsOwned(owner: seq<Owner>, free: seq<nat>, who: nat)
    requires |owner| == NP && FreeOwned(owner, free) && free != []
    ensures var n := |free| - 1; FreeOwned(owner[free[n] := Held(who)], free[..n])
  {
    var n := |free| - 1;
    forall k | 0 <= k < n
      ensures free[k] != free[n]
    {
      assert owner[free[k]] == Free(k) && owner[free[n]] == Free(n);
    }
  }

  lemma PopFreeKeepsAlloc(kend: nat, s: State, who: nat)
    requires AllocOk(kend, s) && s.free != []
    ensures AllocOk(kend, PopFree(s, who))
  {
    var n := |s.free| - 1;
    PopFreeKeepsOwned(s.owner, s.free, who);
    assert s.mem[s.free[n]] == LinkPage(Link(s.free, n));
  }

  lemma PushFreeKeepsOwned(owner: seq<Owner>, free: seq<nat>, p: nat)
    requires |owner| == NP && FreeOwned(owner, free) && p < NP && !owner[p].Free?
    ensures FreeOwned(owner[p := Free(|free|)], free + [p])
  {
  }

  lemma PushFreeKeepsLinked(mem: seq<Page>, owner: seq<Owner>, free: seq<nat>, p: nat)
    requires |mem| == NP && |owner| == NP && FreeOwned(owner, free) && FreeLinked(mem, free)
    requires p < NP && !owner[p].Free?
    ensures FreeLinked(mem[p := LinkPage(Link(free, |free|))], free + [p])
  {
    var mem' := mem[p := LinkPage(Link(free, |free|))];
    var free' := free + [p];
    forall k {:trigger mem'[free'[k]]} | 0 <= k < |free'| && free'[k] < NP
      ensures mem'[free'[k]] == LinkPage(Link(free', k))
    {
      if k < |free| {
        assert owner[free[k]] == Free(k);
        assert mem'[free'[k]] == mem[free[k]];
      }
    }
  }

  lemma PushFreeKeepsAlloc(kend: nat, s: State, p: nat)
    requires AllocOk(kend, s) && kend <= p < NP && !s.owner[p].Free?
    ensures AllocOk(kend, PushFree(s, p))
  {
    PushFreeKeepsOwned(s.owner, s.free, p);
    PushFreeKeepsLinked(s.mem, s.owner, s.free, p);
    hide FreeOwned;
    hide FreeLinked;
  }
}
