/** What deallocuvm and freevm do, as relations between two states. */
module Unmapping {
  import opened Paging
  import opened Steps
  import opened Mapping

  /** The translation without the pages in [lo, hi). */
  function Without(pages: map<nat, Entry>, lo: nat, hi: nat): map<nat, Entry> {
    map v | v in pages && !(lo <= v < hi) :: pages[v]
  }

  /** Every page keeps its owner, and its contents unless it is a table of d; but the frames that d mapped
      in [lo, hi) are free. */
  ghost predicate OwnersWithout(d: nat, s0: State, s: State, lo: nat, hi: nat)
    requires |s0.owner| == |s.owner| == NP && |s0.mem| == |s.mem| == NP
  {
    forall p {:trigger s.owner[p]} {:trigger s.mem[p]} :: 0 <= p < NP ==>
      match s0.owner[p]
      case Free(_) => s.owner[p].Free?
      case Frm(e, v) => if e == d && lo <= v < hi then s.owner[p].Free?
                        else s.owner[p] == s0.owner[p] && s.mem[p] == s0.mem[p]
      case Tab(e, _) => s.owner[p] == s0.owner[p] && (e != d ==> s.mem[p] == s0.mem[p])
      case _ => s.owner[p] == s0.owner[p] && s.mem[p] == s0.mem[p]
  }

  /** s is s0 with the pages of d in [lo, hi) unmapped and their frames freed. */
  ghost predicate Unmapped(d: nat, s0: State, s: State, lo: nat, hi: nat) {
    && |s0.owner| == |s.owner| == NP && |s0.mem| == |s.mem| == NP
    && OwnersWithout(d, s0, s, lo, hi)
    && d in s0.spaces && d in s.spaces
    && s.spaces == s0.spaces[d := Space(s0.spaces[d].tabs, Without(s0.spaces[d].pages, lo, hi))]
    && |s.free| + |s.spaces[d].pages| == |s0.free| + |s0.spaces[d].pages|
  }

  lemma UnmappedNone(d: nat, s: State, lo: nat)
    requires |s.owner| == NP && |s.mem| == NP && d in s.spaces
    ensures Unmapped(d, s, s, lo, lo)
  {
    assert Without(s.spaces[d].pages, lo, lo) == s.spaces[d].pages;
  }

  /** Nothing is mapped in [mid, hi), so skipping it unmaps it. */
  lemma UnmappedSkip(d: nat, s0: State, s: State, lo: nat, mid: nat, hi: nat)
    requires Unmapped(d, s0, s, lo, mid) && mid <= hi
    requires forall v :: mid <= v < hi ==> v !in s.spaces[d].pages
    requires Backed(s0.owner, s0.spaces)
    ensures Unmapped(d, s0, s, lo, hi)
  {
    forall v | mid <= v < hi
      ensures v !in s0.spaces[d].pages
    {
      assert v !in Without(s0.spaces[d].pages, lo, mid);
    }
    assert Without(s0.spaces[d].pages, lo, hi) == Without(s0.spaces[d].pages, lo, mid);
  }

  /** The page at mid is mapped: free its frame and clear its entry. */
  lemma UnmappedOneMore(kend: nat, d: nat, s0: State, s: State, lo: nat, mid: nat)
    requires Good(kend, s) && Unmapped(d, s0, s, lo, mid) && UPAGE <= lo <= mid && mid in s.spaces[d].pages
    ensures s.spaces[d].pages[mid].frame < NP
    ensures mid / NSLOT in s.spaces[d].tabs && s.spaces[d].tabs[mid / NSLOT] < NP
    ensures Good(kend, UnmapPage(s, d, mid)) && Unmapped(d, s0, UnmapPage(s, d, mid), lo, mid + 1)
  {
    hide Good, Keeps;
    UnmapPageKeeps(kend, s, d, mid);
    TableOwner(kend, s, d, mid / NSLOT);
    FrameOwner(kend, s, d, mid);
    UnmappedCompose(d, s0, s, lo, mid);
  }

  /** The frame behind a user page is owned by that page and no other frame is. */
  lemma FrameOwner(kend: nat, s: State, d: nat, v: nat)
    requires Good(kend, s) && d in s.spaces && v in s.spaces[d].pages && UPAGE <= v
    ensures kend <= s.spaces[d].pages[v].frame < NP && s.owner[s.spaces[d].pages[v].frame] == Frm(d, v)
    ensures forall p :: 0 <= p < NP && s.owner[p] == Frm(d, v) ==> p == s.spaces[d].pages[v].frame
  {
    assert SpaceOk(s.mem, s.owner, d, s.spaces[d]);
    forall p | 0 <= p < NP && s.owner[p] == Frm(d, v)
      ensures p == s.spaces[d].pages[v].frame
    {
      assert Backs(s.owner[p], p, s.spaces);
    }
  }

  lemma UnmappedCompose(d: nat, s0: State, s: State, lo: nat, mid: nat)
    requires Unmapped(d, s0, s, lo, mid) && lo <= mid && mid in s.spaces[d].pages
    requires mid / NSLOT in s.spaces[d].tabs && s.spaces[d].tabs[mid / NSLOT] < NP
    requires s.owner[s.spaces[d].tabs[mid / NSLOT]] == Tab(d, mid / NSLOT)
    requires s.spaces[d].pages[mid].frame < NP && s.owner[s.spaces[d].pages[mid].frame] == Frm(d, mid)
    requires forall p :: 0 <= p < NP && s.owner[p] == Frm(d, mid) ==> p == s.spaces[d].pages[mid].frame
    ensures Unmapped(d, s0, UnmapPage(s, d, mid), lo, mid + 1)
  {
    assert Without(s0.spaces[d].pages, lo, mid + 1) == Without(s0.spaces[d].pages, lo, mid) - {mid};
  }

  // ---- freevm --------------------------------------------------------------------------------

  /** The owner of a page once directory d is no longer an address space: kernel tables are left behind,
      the directory and the user tables are in the hands of freevm. */
  function DropOwner(o: Owner, d: nat): Owner {
    match o
    case Dir(e) => if e == d then Held(d) else o
    case Tab(e, i) => if e != d then o else if i < USLOT then Retired else Held(d)
    case _ => o
  }

  function DropSpace(s: State, d: nat): State
    requires |s.owner| == NP
  {
    s.(owner := seq(NP, p requires 0 <= p < NP => DropOwner(s.owner[p], d)), spaces := s.spaces - {d})
  }

  lemma DropSpaceKeeps(kend: nat, s: State, d: nat)
    requires Good(kend, s) && d in s.spaces && forall v :: v in s.spaces[d].pages ==> v < UPAGE
    ensures Good(kend, DropSpace(s, d)) && Keeps(d, s, DropSpace(s, d))
  {
    var t := DropSpace(s, d);
    AllocFrame(kend, s, t);
    OthersStayOk(s, t, d);
    forall p | 0 <= p < NP
      ensures Backs(t.owner[p], p, t.spaces)
    {
      assert Backs(s.owner[p], p, s.spaces);
    }
  }

  /** kfree of a page in the hands of a kernel function. */
  lemma PushFreeKeeps(kend: nat, s: State, d: nat, p: nat)
    requires Good(kend, s) && p < NP && s.owner[p] == Held(d)
    ensures kend <= p && Good(kend, PushFree(s, p)) && Keeps(d, s, PushFree(s, p))
  {
    var t := PushFree(s, p);
    PushFreeKeepsAlloc(kend, s, p);
    forall e | e in t.spaces
      ensures SpaceOk(t.mem, t.owner, e, t.spaces[e])
    {
      SpaceFrame(s, t, e, s.spaces[e]);
    }
    forall q | 0 <= q < NP
      ensures Backs(t.owner[q], q, t.spaces)
    {
      assert Backs(s.owner[q], q, s.spaces);
    }
  }

  /** Every page of d is back on the free list but its kernel tables; nothing else has changed hands. */
  ghost predicate Dismantled(d: nat, s0: State, s: State) {
    && |s0.owner| == |s.owner| == NP && |s0.mem| == |s.mem| == NP
    && s.spaces == s0.spaces - {d}
    && forall p {:trigger s.owner[p]} {:trigger s.mem[p]} :: 0 <= p < NP ==>
         match s0.owner[p]
         case Free(_) => s.owner[p].Free?
         case Dir(e) => if e == d then s.owner[p].Free? else s.owner[p] == s0.owner[p] && s.mem[p] == s0.mem[p]
         case Frm(e, _) => if e == d then s.owner[p].Free? else s.owner[p] == s0.owner[p] && s.mem[p] == s0.mem[p]
         case Tab(e, i) => if e != d then s.owner[p] == s0.owner[p] && s.mem[p] == s0.mem[p]
                           else if i < USLOT then s.owner[p].Retired? else s.owner[p].Free?
         case _ => s.owner[p] == s0.owner[p] && s.mem[p] == s0.mem[p]
  }

  /** freevm under way: the user tables below slot i are freed, those from i up and the directory are in hand. */
  ghost predicate Dismantling(d: nat, s0: State, s: State, i: nat) {
    && |s0.owner| == |s.owner| == NP && |s0.mem| == |s.mem| == NP
    && s.spaces == s0.spaces - {d}
    && forall p {:trigger s.owner[p]} {:trigger s.mem[p]} :: 0 <= p < NP ==>
         match s0.owner[p]
         case Free(_) => s.owner[p].Free?
         case Dir(e) => s.mem[p] == s0.mem[p] && s.owner[p] == if e == d then Held(d) else s0.owner[p]
         case Tab(e, j) => if e != d then s.owner[p] == s0.owner[p] && s.mem[p] == s0.mem[p]
                           else if j < USLOT then s.owner[p].Retired?
                           else if j < i then s.owner[p].Free? else s.owner[p] == Held(d)
         case _ => s.owner[p] == s0.owner[p] && s.mem[p] == s0.mem[p]
  }

  lemma DismantlingStart(kend: nat, d: nat, s: State)
    requires Good(kend, s) && d in s.spaces && forall v :: v in s.spaces[d].pages ==> v < UPAGE
    ensures |s.owner| == NP && Good(kend, DropSpace(s, d)) && Dismantling(d, s, DropSpace(s, d), USLOT)
    ensures DropSpace(s, d) == s.(owner := DropSpace(s, d).owner, spaces := DropSpace(s, d).spaces)
  {
    DropSpaceKeeps(kend, s, d);
    SpaceDir(kend, s, d);
  }

  /** Slot i: its table, if it has one, is freed. */
  lemma DismantlingNext(kend: nat, d: nat, s0: State, s: State, i: nat)
    requires Good(kend, s0) && d in s0.spaces && Good(kend, s) && Dismantling(d, s0, s, i) && USLOT <= i < NSLOT
    ensures i !in s0.spaces[d].tabs ==> Dismantling(d, s0, s, i + 1)
    ensures i in s0.spaces[d].tabs ==>
              var t := s0.spaces[d].tabs[i];
              && kend <= t < NP && s.owner[t] == Held(d)
              && Good(kend, PushFree(s, t)) && Dismantling(d, s0, PushFree(s, t), i + 1)
  {
    SlotOwner(kend, s0, d, i);
    if i in s0.spaces[d].tabs {
      PushFreeKeeps(kend, s, d, s0.spaces[d].tabs[i]);
    }
  }

  /** Only the page in slot i is a table for slot i. */
  lemma SlotOwner(kend: nat, s: State, d: nat, i: nat)
    requires Good(kend, s) && d in s.spaces
    ensures i in s.spaces[d].tabs ==>
              i < NSLOT && 0 < s.spaces[d].tabs[i] < NP && s.owner[s.spaces[d].tabs[i]] == Tab(d, i)
    ensures forall p :: 0 <= p < NP && s.owner[p] == Tab(d, i) ==> i in s.spaces[d].tabs && p == s.spaces[d].tabs[i]
  {
    assert SpaceOk(s.mem, s.owner, d, s.spaces[d]);
    forall p | 0 <= p < NP && s.owner[p] == Tab(d, i)
      ensures i in s.spaces[d].tabs && p == s.spaces[d].tabs[i]
    {
      assert Backs(s.owner[p], p, s.spaces);
    }
  }

  /** The slots and page numbers that owners of d carry are in range. */
  ghost predicate OwnersInRange(d: nat, s: State) {
    forall p {:trigger s.owner[p]} :: 0 <= p < |s.owner| ==>
      match s.owner[p]
      case Dir(e) => e == d ==> p == d
      case Tab(e, i) => e == d ==> i < NSLOT
      case Frm(e, v) => e == d ==> UPAGE <= v < UTOP && d in s.spaces && v in s.spaces[d].pages
      case _ => true
  }

  lemma GoodOwnersInRange(kend: nat, d: nat, s: State)
    requires Good(kend, s) && d in s.spaces
    ensures OwnersInRange(d, s)
  {
    assert SpaceOk(s.mem, s.owner, d, s.spaces[d]);
    forall p | 0 <= p < NP
      ensures Backs(s.owner[p], p, s.spaces)
    {
    }
  }

  /** Last, the directory itself. */
  lemma DismantlingEnd(kend: nat, d: nat, s0: State, s: State)
    requires Good(kend, s0) && d in s0.spaces && Good(kend, s) && Dismantling(d, s0, s, NSLOT)
    requires forall v :: v in s0.spaces[d].pages ==> v < UPAGE
    ensures kend <= d < NP && s.owner[d] == Held(d)
    ensures Good(kend, PushFree(s, d)) && Dismantled(d, s0, PushFree(s, d))
  {
    hide Good, Keeps;
    SpaceDir(kend, s0, d);
    ValidSizes(kend, s);
    PushFreeKeeps(kend, s, d, d);
    GoodOwnersInRange(kend, d, s0);
  }

  lemma ValidSizes(kend: nat, s: State)
    requires Good(kend, s)
    ensures |s.mem| == NP && |s.owner| == NP && 0 < kend <= NP
  {
  }

  lemma UnmappedThenDismantled(d: nat, s0: State, s1: State, s: State, kend: nat)
    requires Good(kend, s0) && Unmapped(d, s0, s1, UPAGE, UTOP) && Dismantled(d, s1, s)
    ensures Dismantled(d, s0, s) && Keeps(d, s0, s)
  {
    hide Good;
    GoodOwnersInRange(kend, d, s0);
    assert s0.spaces - {d} == s1.spaces - {d};
    assert Dismantled(d, s0, s);
  }

  /** After user space is unmapped only kernel pages are left. */
  lemma OnlyKernelLeft(kend: nat, d: nat, s0: State, s1: State)
    requires Good(kend, s0) && Unmapped(d, s0, s1, UPAGE, UTOP)
    ensures forall v :: v in s1.spaces[d].pages ==> v < UPAGE
  {
    assert SpaceOk(s0.mem, s0.owner, d, s0.spaces[d]);
  }
}
