/** kernel/mm/kalloc.c: the physical page allocator, a free list threaded through the free pages. */
module Allocator {
  import opened Memory
  import opened Paging

  /** Physical memory and the allocator's list head; the ghost fields account for every page. */
  class Machine {
    const kend: nat   // kernel_end / PAGESIZE
    const rodata: nat // rodata_end / PAGESIZE
    const mem: array<Page>
    var coremap: word
    ghost var free: seq<nat>
    ghost var owner: seq<Owner>
    ghost var spaces: map<nat, Space>

    ghost function View(): State
      reads this, mem
    {
      State(mem[..], coremap, free, owner, spaces)
    }

    ghost predicate Valid()
      reads this, mem
    {
      Good(kend, View()) && EXTPAGE < rodata <= kend
    }

    /** Memory as the boot loader leaves it: the kernel in place, arbitrary contents above it. */
    constructor (contents: seq<Page>, kernelEnd: nat, rodataEnd: nat)
      requires |contents| == NP && EXTPAGE < rodataEnd <= kernelEnd <= NP
      ensures Valid() && fresh(mem) && mem[..] == contents && coremap == 0 && kend == kernelEnd && rodata == rodataEnd
      ensures free == [] && spaces == map[]
      ensures FreedUpTo(kend, View(), kend)
    {
      kend, rodata := kernelEnd, rodataEnd;
      mem, coremap := new Page[NP](i requires 0 <= i < NP => contents[i]), 0;
      free, spaces := [], map[];
      owner := seq(NP, p => if p < kernelEnd then Fixed else Held(0));
    }
  }

  /** The word at physical address a. */
  function Load(mem: array<Page>, a: word): word
    requires a / PAGESIZE < mem.Length
    reads mem
  {
    mem[a / PAGESIZE][a % PAGESIZE / 4]
  }

  method Store(mem: array<Page>, a: word, w: word)
    requires a / PAGESIZE < mem.Length
    modifies mem
    ensures mem[..] == old(mem[..])[a / PAGESIZE := old(mem[a / PAGESIZE])[a % PAGESIZE / 4 := w]]
  {
    mem[a / PAGESIZE] := mem[a / PAGESIZE][a % PAGESIZE / 4 := w];
  }

  /** Take the page at the head of the list; 0 if there is none. Its first word still holds the old link. */
  method Kalloc(m: Machine, ghost who: nat) returns (pa: word)
    requires AllocOk(m.kend, m.View())
    modifies m`coremap, m`free, m`owner
    ensures AllocOk(m.kend, m.View())
    ensures old(m.free) == [] ==> pa == 0 && m.View() == old(m.View())
    ensures old(m.free) != [] ==>
              && m.View() == PopFree(old(m.View()), who)
              && pa == old(m.free)[|old(m.free)| - 1] * PAGESIZE
              && old(m.owner)[pa / PAGESIZE] == Free(|old(m.free)| - 1)
  {
    pa := m.coremap;
    if pa != 0 {
      PopFreeKeepsAlloc(m.kend, m.View(), who);
      m.coremap := Load(m.mem, pa);
      m.owner := m.owner[pa / PAGESIZE := Held(who)];
      m.free := m.free[..|m.free| - 1];
    }
  }

  /** Clear the page and put it at the head of the list. */
  method Kfree(m: Machine, addr: word)
    requires AllocOk(m.kend, m.View())
    requires addr % PAGESIZE == 0 && m.kend * PAGESIZE <= addr < MEMSIZE // else panic("kfree")
    requires !m.owner[addr / PAGESIZE].Free?
    modifies m.mem, m`coremap, m`free, m`owner
    ensures AllocOk(m.kend, m.View())
    ensures m.View() == PushFree(old(m.View()), addr / PAGESIZE)
  {
    PushFreeKeepsAlloc(m.kend, m.View(), addr / PAGESIZE);
    m.mem[addr / PAGESIZE] := ZeroPage();
    Store(m.mem, addr, m.coremap);
    m.coremap := addr;
    m.owner := m.owner[addr / PAGESIZE := Free(|m.free|)];
    m.free := m.free + [addr / PAGESIZE];
  }

  /** kinit half way: the pages below n are on the list in order, those from n up are not yet. */
  ghost predicate FreedUpTo(kend: nat, s: State, n: nat)
    requires |s.owner| == NP
  {
    && kend <= n <= NP && |s.free| == n - kend && (forall i :: 0 <= i < n - kend ==> s.free[i] == kend + i)
    && forall p :: 0 <= p < NP ==>
         s.owner[p] == if p < kend then Fixed else if p < n then Free(p - kend) else Held(0)
  }

  /** The kernel's own pages are not written. */
  ghost predicate KernelKept(kend: nat, mem: seq<Page>, mem': seq<Page>)
    requires kend <= |mem| && kend <= |mem'|
  {
    forall p :: 0 <= p < kend ==> mem'[p] == mem[p]
  }

  lemma KernelKeptTransitive(kend: nat, a: seq<Page>, b: seq<Page>, c: seq<Page>)
    requires |a| == |b| == |c| == NP && kend <= NP && KernelKept(kend, a, b) && KernelKept(kend, b, c)
    ensures KernelKept(kend, a, c)
  {
  }

  lemma FreedOneMore(kend: nat, s: State, n: nat)
    requires AllocOk(kend, s) && FreedUpTo(kend, s, n) && n < NP
    ensures |s.mem| == NP && kend <= n && !s.owner[n].Free? && FreedUpTo(kend, PushFree(s, n), n + 1)
    ensures KernelKept(kend, s.mem, PushFree(s, n).mem)
  {
  }

  lemma BootState(kend: nat, s: State)
    requires Good(kend, s)
    ensures AllocOk(kend, s) && |s.mem| == NP && |s.owner| == NP && kend <= NP && KernelKept(kend, s.mem, s.mem)
  {
  }

  lemma FreedAll(kend: nat, s: State)
    requires AllocOk(kend, s) && FreedUpTo(kend, s, NP) && s.spaces == map[]
    ensures Good(kend, s)
  {
  }

  /** Hand every page from kernel_end up to the allocator. */
  method Kinit(m: Machine)
    requires m.Valid() && m.free == [] && m.spaces == map[]
    requires FreedUpTo(m.kend, m.View(), m.kend)
    modifies m.mem, m`coremap, m`free, m`owner
    ensures m.Valid() && FreedUpTo(m.kend, m.View(), NP)
    ensures KernelKept(m.kend, old(m.mem[..]), m.mem[..])
  {
    hide AllocOk, FreedUpTo, Good, KernelKept;
    BootState(m.kend, m.View());
    var p := m.kend * PAGESIZE;
    ghost var n := m.kend;
    while p < MEMSIZE
      invariant p == n * PAGESIZE
      invariant m.mem.Length == NP && |m.owner| == NP && m.kend <= n <= NP
      invariant AllocOk(m.kend, m.View()) && m.spaces == map[] && FreedUpTo(m.kend, m.View(), n)
      invariant KernelKept(m.kend, old(m.mem[..]), m.mem[..])
    {
      assert p / PAGESIZE == n;
      FreedOneMore(m.kend, m.View(), n);
      KernelKeptTransitive(m.kend, old(m.mem[..]), m.mem[..], PushFree(m.View(), n).mem);
      Kfree(m, p);
      p, n := p + PAGESIZE, n + 1;
    }
    FreedAll(m.kend, m.View());
  }

  // ---- what the list looks like to someone who only reads memory ------------------------------

  /** The pages met by following n links from address a. */
  function Follow(mem: seq<Page>, a: word, n: nat): seq<nat>
    decreases n
  {
    if n == 0 || a == 0 || a / PAGESIZE >= |mem| then []
    else [a / PAGESIZE] + Follow(mem, mem[a / PAGESIZE][0], n - 1)
  }

  function Reversed(s: seq<nat>): seq<nat> {
    if s == [] then [] else [s[|s| - 1]] + Reversed(s[..|s| - 1])
  }

  /** Following the links from coremap meets exactly the free pages, each once, and then null. */
  lemma {:induction false} ListIsThreaded(kend: nat, s: State, k: nat, n: nat)
    requires AllocOk(kend, s) && k <= |s.free| && k <= n
    ensures Follow(s.mem, Link(s.free, k), n) == Reversed(s.free[..k])
  {
    if k > 0 {
      var p := s.free[k - 1];
      assert s.owner[p] == Free(k - 1);
      assert s.owner[0] == Fixed;
      assert s.mem[p] == LinkPage(Link(s.free, k - 1));
      ListIsThreaded(kend, s, k - 1, n - 1);
      assert s.free[..k][..k - 1] == s.free[..k - 1];
    }
  }

  /** No page is on the list twice, and a page is on it exactly when it is owned by it. */
  lemma FreeListExact(kend: nat, s: State)
    requires AllocOk(kend, s)
    ensures forall j, k :: 0 <= j < k < |s.free| ==> s.free[j] != s.free[k]
    ensures forall p :: 0 <= p < NP ==> (p in s.free <==> s.owner[p].Free?)
  {
    forall j, k | 0 <= j < k < |s.free|
      ensures s.free[j] != s.free[k]
    {
      assert s.owner[s.free[j]] == Free(j) && s.owner[s.free[k]] == Free(k);
    }
  }

  /** A free page is clear but for the link in its first word. */
  lemma FreePagesClear(kend: nat, s: State, p: nat, j: nat)
    requires AllocOk(kend, s) && p < NP && s.owner[p].Free? && 0 < j < NWORD
    ensures s.mem[p][j] == 0
  {
    assert s.mem[s.free[s.owner[p].pos]] == LinkPage(Link(s.free, s.owner[p].pos));
  }

  /** A page that is freed is the next one allocated, and the list is then what it was. */
  lemma FreeThenAlloc(kend: nat, s: State, p: nat, who: nat)
    requires AllocOk(kend, s) && kend <= p < NP && !s.owner[p].Free?
    ensures var t := PushFree(s, p);
            && t.free != [] && t.free[|t.free| - 1] == p
            && PopFree(t, who) == s.(mem := s.mem[p := LinkPage(s.head)], owner := s.owner[p := Held(who)])
  {
    var t := PushFree(s, p);
    assert t.free[..|t.free| - 1] == s.free;
    assert t.head / PAGESIZE == p;
    assert s.owner[p := Free(|s.free|)][p := Held(who)] == s.owner[p := Held(who)];
  }
}
