/** What allocuvm and copyuvm do to user space, as relations between two states. */
module Growing {
  import opened Counting
  import opened Memory
  import opened Paging
  import opened Steps
  import opened Mapping
  import opened Unmapping

  /** What a new user page is to hold, and the flags of its entry. */
  datatype Image = Image(data: Page, flags: nat)

  /** Page v + i of d maps a frame that was free in s0 and now holds images[i]. */
  ghost predicate Holds(d: nat, s0: State, s: State, v: nat, images: seq<Image>)
    requires |s0.owner| == NP && |s.mem| == NP && d in s.spaces
  {
    forall u :: v <= u < v + |images| ==>
      && u in s.spaces[d].pages && s.spaces[d].pages[u].frame < NP
      && s0.owner[s.spaces[d].pages[u].frame].Free?
      && s.mem[s.spaces[d].pages[u].frame] == images[u - v].data
      && s.spaces[d].pages[u].flags == images[u - v].flags
  }

  /** d has gained the pages [v, v + k) and kept the others. */
  ghost predicate PagesGrow(pages: map<nat, Entry>, pages': map<nat, Entry>, v: nat, k: nat) {
    && (forall u :: u in pages' <==> u in pages || v <= u < v + k)
    && (forall u :: u in pages ==> u in pages' && pages'[u] == pages[u])
  }

  /** Pages in use keep their owner, and their contents unless they are d's paging structures;
      a free page may have become a table of d or the frame of one of the new pages. */
  ghost predicate OwnersGrow(d: nat, s0: State, s: State, v: nat, k: nat) {
    && |s0.mem| == |s.mem| == NP && |s0.owner| == |s.owner| == NP
    && forall p {:trigger s.owner[p]} {:trigger s.mem[p]} :: 0 <= p < NP ==>
         if s0.owner[p].Free? then s.owner[p].Free? || TableOf(s.owner[p], d) || FrameIn(s.owner[p], d, v, k)
         else
           && s.owner[p] == s0.owner[p]
           && (s0.owner[p] == Dir(d) || TableOf(s0.owner[p], d) || s.mem[p] == s0.mem[p])
  }

  predicate FrameIn(o: Owner, d: nat, v: nat, k: nat) {
    o.Frm? && o.dir == d && v <= o.v < v + k
  }

  /** s is s0 with pages from v on added to d, holding the images. */
  ghost predicate Grown(d: nat, s0: State, s: State, v: nat, images: seq<Image>) {
    && OwnersGrow(d, s0, s, v, |images|)
    && d in s0.spaces && d in s.spaces && s.spaces == s0.spaces[d := s.spaces[d]]
    && PagesGrow(s0.spaces[d].pages, s.spaces[d].pages, v, |images|)
    && TabsGrow(s0.spaces[d].tabs, s.spaces[d].tabs, v, |images|)
    && Holds(d, s0, s, v, images)
    && |s.free| + |s.spaces[d].tabs| + |images| == |s0.free| + |s0.spaces[d].tabs|
  }

  lemma GrownNone(kend: nat, d: nat, s: State, v: nat)
    requires Good(kend, s) && d in s.spaces
    ensures Grown(d, s, s, v, [])
  {
  }

  /** A page taken from the list and filled. */
  function TakeAndFill(s: State, d: nat, data: Page): State
    requires |s.mem| == NP && |s.owner| == NP && s.free != [] && s.free[|s.free| - 1] < NP && s.head / PAGESIZE < NP
  {
    var t := PopFree(s, d);
    t.(mem := t.mem[s.free[|s.free| - 1] := data])
  }

  /** Writing a page that a kernel function holds breaks nothing. */
  lemma FillHeld(kend: nat, s: State, d: nat, f: nat, data: Page)
    requires Good(kend, s) && f < NP && s.owner[f] == Held(d)
    ensures Good(kend, s.(mem := s.mem[f := data])) && Keeps(d, s, s.(mem := s.mem[f := data]))
  {
    var t := s.(mem := s.mem[f := data]);
    AllocFrame(kend, s, t);
    forall e | e in t.spaces
      ensures SpaceOk(t.mem, t.owner, e, t.spaces[e])
    {
      SpaceFrame(s, t, e, s.spaces[e]);
    }
  }

  lemma TakeAndFillKeeps(kend: nat, s: State, d: nat, data: Page)
    requires Good(kend, s) && s.free != []
    ensures |s.mem| == NP && |s.owner| == NP && s.head / PAGESIZE < NP && 0 < s.free[|s.free| - 1] < NP
    ensures Good(kend, TakeAndFill(s, d, data)) && Keeps(d, s, TakeAndFill(s, d, data))
    ensures s.owner[s.free[|s.free| - 1]].Free? && TakeAndFill(s, d, data).owner[s.free[|s.free| - 1]] == Held(d)
  {
    PopFreeKeeps(kend, s, d);
    assert s.owner[0] == Fixed;
    FillHeld(kend, PopFree(s, d), d, s.free[|s.free| - 1], data);
    KeepsTransitive(d, s, PopFree(s, d), TakeAndFill(s, d, data));
  }

  /** One more page: from s, a page f is taken, filled, and mapped at the end of the run, giving t. */
  lemma GrownNext(d: nat, s0: State, s: State, r: State, t: State, v: nat, images: seq<Image>, data: Page, flags: nat)
    requires Grown(d, s0, s, v, images) && UPAGE <= v && v + |images| !in s.spaces[d].pages
    requires |s.mem| == NP && |s.owner| == NP && s.free != [] && s.free[|s.free| - 1] < NP && s.head / PAGESIZE < NP
    requires s.owner[s.free[|s.free| - 1]].Free? && r == TakeAndFill(s, d, data)
    requires Mapped(d, r, t, v + |images|, s.free[|s.free| - 1], flags, 1)
    requires forall u :: v <= u < v + |images| ==> s.owner[s.spaces[d].pages[u].frame] == Frm(d, u)
    ensures Grown(d, s0, t, v, images + [Image(data, WithP(flags))])
  {
    hide OwnersGrow, Holds, TabsGrow, Keeps, ContentKept, OwnersAfter, MapRun, PagesGrow;
    var f := s.free[|s.free| - 1];
    var k := |images|;
    SizesOfGrown(d, s0, s, v, images);
    SizesOfMapped(d, r, t, v + k, f, flags, 1);
    GrownOwners(d, s0, s, r, t, v, k, f);
    MapRunOne(s.spaces[d].pages, v + k, f, flags);
    PagesGrowNext(s0.spaces[d].pages, s.spaces[d].pages, v, k, Entry(f, WithP(flags)));
    HoldsNext(d, s0, s, r, t, v, images, f, Image(data, WithP(flags)));
    TabsGrowNext(s0.spaces[d].tabs, s.spaces[d].tabs, t.spaces[d].tabs, v, k);
  }

  lemma MapRunOne(pages: map<nat, Entry>, v: nat, f: nat, flags: nat)
    ensures MapRun(pages, v, f, flags, 1) == pages[v := Entry(f, WithP(flags))]
  {
  }

  lemma TabsGrowNext(tabs: map<nat, nat>, tabs1: map<nat, nat>, tabs2: map<nat, nat>, v: nat, k: nat)
    requires TabsGrow(tabs, tabs1, v, k) && TabsGrow(tabs1, tabs2, v + k, 1)
    ensures TabsGrow(tabs, tabs2, v, k + 1)
  {
  }

  lemma HoldsNext(d: nat, s0: State, s: State, r: State, t: State, v: nat, images: seq<Image>, f: nat, image: Image)
    requires |s0.owner| == |s.owner| == NP && |s.mem| == NP && d in s.spaces && Holds(d, s0, s, v, images)
    requires f < NP && s0.owner[f].Free? && |r.mem| == NP && r.mem[f] == image.data
    requires forall p :: 0 <= p < NP && p != f ==> r.mem[p] == s.mem[p]
    requires |r.owner| == NP && r.owner == s.owner[f := Held(d)] && ContentKept(d, r, t)
    requires forall u :: v <= u < v + |images| ==> s.owner[s.spaces[d].pages[u].frame] == Frm(d, u)
    requires s.owner[f].Free?
    requires d in t.spaces && t.spaces[d].pages == s.spaces[d].pages[v + |images| := Entry(f, image.flags)]
    ensures Holds(d, s0, t, v, images + [image])
  {
    forall u | v <= u < v + |images|
      ensures s.spaces[d].pages[u].frame != f && t.mem[s.spaces[d].pages[u].frame] == s.mem[s.spaces[d].pages[u].frame]
    {
      assert r.owner[s.spaces[d].pages[u].frame] == Frm(d, u);
    }
  }

  lemma GrownOwners(d: nat, s0: State, s: State, r: State, t: State, v: nat, k: nat, f: nat)
    requires OwnersGrow(d, s0, s, v, k) && UPAGE <= v && f < NP && s.owner[f].Free?
    requires |r.owner| == NP && |r.mem| == NP && |t.owner| == NP
    requires r.owner == s.owner[f := Held(d)]
    requires forall p :: 0 <= p < NP && p != f ==> r.mem[p] == s.mem[p]
    requires ContentKept(d, r, t) && OwnersAfter(d, r, t, v + k, f, 1)
    ensures OwnersGrow(d, s0, t, v, k + 1) && s0.owner[f].Free?
  {
  }

  lemma SizesOfGrown(d: nat, s0: State, s: State, v: nat, images: seq<Image>)
    requires Grown(d, s0, s, v, images)
    ensures |s0.mem| == |s.mem| == NP && |s0.owner| == |s.owner| == NP
  {
  }

  lemma SizesOfMapped(d: nat, s: State, t: State, v: nat, f: nat, flags: nat, k: nat)
    requires Mapped(d, s, t, v, f, flags, k)
    ensures |s.mem| == |t.mem| == NP && |s.owner| == |t.owner| == NP
  {
  }

  lemma PagesGrowNext(pages: map<nat, Entry>, pages': map<nat, Entry>, v: nat, k: nat, e: Entry)
    requires PagesGrow(pages, pages', v, k) && v + k !in pages'
    ensures PagesGrow(pages, pages'[v + k := e], v, k + 1)
  {
  }

  // ---- failure: back to the old mappings -----------------------------------------------------

  /** The mappings of d are those of s0 again and every frame is back; only page tables may have stayed. */
  ghost predicate RolledBack(d: nat, s0: State, s: State, v: nat, k: nat) {
    && OwnersGrow(d, s0, s, v, 0)
    && d in s0.spaces && d in s.spaces && s.spaces == s0.spaces[d := s.spaces[d]]
    && s.spaces[d].pages == s0.spaces[d].pages
    && TabsGrow(s0.spaces[d].tabs, s.spaces[d].tabs, v, k)
    && |s.free| + |s.spaces[d].tabs| == |s0.free| + |s0.spaces[d].tabs|
  }

  /** Nothing is mapped in [v, v + n), so no page is a frame of that range. */
  ghost predicate Vacant(d: nat, s: State, v: nat, n: nat) {
    && d in s.spaces && (forall u :: v <= u < v + n ==> u !in s.spaces[d].pages)
    && (forall p {:trigger s.owner[p]} :: 0 <= p < |s.owner| ==> !FrameIn(s.owner[p], d, v, n))
  }

  lemma VacantOwners(kend: nat, d: nat, s: State, v: nat, n: nat)
    requires Good(kend, s) && d in s.spaces && forall u :: v <= u < v + n ==> u !in s.spaces[d].pages
    ensures Vacant(d, s, v, n)
  {
    forall p | 0 <= p < NP
      ensures !FrameIn(s.owner[p], d, v, n)
    {
      assert Backs(s.owner[p], p, s.spaces);
    }
  }

  lemma GrownUndone(d: nat, s0: State, s: State, t: State, v: nat, images: seq<Image>, n: nat)
    requires Grown(d, s0, s, v, images) && |images| <= n && Vacant(d, s0, v, n) && Unmapped(d, s, t, v, v + n)
    ensures RolledBack(d, s0, t, v, |images|)
  {
    PagesBack(s0.spaces[d].pages, s.spaces[d].pages, v, |images|, n);
    hide Holds, TabsGrow, PagesGrow;
    assert OwnersGrow(d, s0, t, v, 0);
  }

  /** The same when a page that could not be mapped is in hand and freed last. */
  lemma GrownUndoneHeld(d: nat, s0: State, s: State, r: State, t: State, v: nat, images: seq<Image>, n: nat, data: Page)
    requires Grown(d, s0, s, v, images) && |images| <= n && Vacant(d, s0, v, n) && Unmapped(d, r, t, v, v + n)
    requires |s.mem| == NP && |s.owner| == NP && s.free != [] && s.free[|s.free| - 1] < NP && s.head / PAGESIZE < NP
    requires s.owner[s.free[|s.free| - 1]].Free? && r == TakeAndFill(s, d, data)
    ensures |t.mem| == |t.owner| == NP && t.owner[s.free[|s.free| - 1]] == Held(d)
    ensures RolledBack(d, s0, PushFree(t, s.free[|s.free| - 1]), v, |images|)
  {
    PagesBack(s0.spaces[d].pages, s.spaces[d].pages, v, |images|, n);
    hide Holds, TabsGrow, PagesGrow;
    assert OwnersGrow(d, s0, PushFree(t, s.free[|s.free| - 1]), v, 0);
  }

  lemma PagesBack(pages: map<nat, Entry>, pages': map<nat, Entry>, v: nat, k: nat, n: nat)
    requires PagesGrow(pages, pages', v, k) && k <= n && forall u :: v <= u < v + n ==> u !in pages
    ensures Without(pages', v, v + n) == pages && |pages'| == |pages| + k
  {
    var added := pages'.Keys - pages.Keys;
    CountRange(added, v, k);
    assert pages'.Keys == pages.Keys + added;
    assert |pages| == |pages.Keys| && |pages'| == |pages'.Keys|;
    assert pages.Keys !! added;
  }

  // ---- how many pages it takes ---------------------------------------------------------------

  /** The slots that need a table before the pages [v, v + n) can be mapped. */
  function NewTabs(tabs: map<nat, nat>, v: nat, n: nat): set<nat> {
    set i | 0 <= i <= (v + n) / NSLOT && n > 0 && v / NSLOT <= i <= (v + n - 1) / NSLOT && i !in tabs
  }

  /** The pages it takes to map n more pages from v on: the frames and the missing tables. */
  function Cost(tabs: map<nat, nat>, v: nat, n: nat): nat {
    n + |NewTabs(tabs, v, n)|
  }

  lemma TabsGrowCount(tabs: map<nat, nat>, tabs': map<nat, nat>, v: nat, k: nat)
    requires TabsGrow(tabs, tabs', v, k)
    ensures |tabs'| == |tabs| + |NewTabs(tabs, v, k)|
  {
    assert tabs'.Keys == tabs.Keys + NewTabs(tabs, v, k) && tabs.Keys !! NewTabs(tabs, v, k);
    assert |tabs| == |tabs.Keys| && |tabs'| == |tabs'.Keys|;
  }

  lemma CostMonotone(tabs: map<nat, nat>, v: nat, k: nat, n: nat)
    requires k <= n
    ensures Cost(tabs, v, k) + (n - k) <= Cost(tabs, v, n)
  {
    SubsetCount(NewTabs(tabs, v, k), NewTabs(tabs, v, n));
  }

  /** Out of frames after k pages: there were not enough pages for all n. */
  lemma OutOfFrames(d: nat, s0: State, s: State, v: nat, images: seq<Image>, n: nat)
    requires Grown(d, s0, s, v, images) && |images| < n && s.free == []
    ensures |s0.free| < Cost(s0.spaces[d].tabs, v, n)
  {
    TabsGrowCount(s0.spaces[d].tabs, s.spaces[d].tabs, v, |images|);
    CostMonotone(s0.spaces[d].tabs, v, |images|, n);
  }

  /** Out of tables with the frame of page k in hand. */
  lemma OutOfTables(d: nat, s0: State, s: State, v: nat, images: seq<Image>, n: nat)
    requires Grown(d, s0, s, v, images) && |images| < n && |s.free| == 1
    requires (v + |images|) / NSLOT !in s.spaces[d].tabs
    ensures |s0.free| < Cost(s0.spaces[d].tabs, v, n)
  {
    var tabs, k := s0.spaces[d].tabs, |images|;
    TabsGrowCount(tabs, s.spaces[d].tabs, v, k);
    assert (v + k) / NSLOT in NewTabs(tabs, v, k + 1) && (v + k) / NSLOT !in NewTabs(tabs, v, k);
    SubsetCount(NewTabs(tabs, v, k) + {(v + k) / NSLOT}, NewTabs(tabs, v, k + 1));
    CostMonotone(tabs, v, k + 1, n);
  }

  /** Success costs exactly Cost pages. */
  lemma GrownCost(d: nat, s0: State, s: State, v: nat, images: seq<Image>)
    requires Grown(d, s0, s, v, images)
    ensures |s.free| == |s0.free| - Cost(s0.spaces[d].tabs, v, |images|)
  {
    TabsGrowCount(s0.spaces[d].tabs, s.spaces[d].tabs, v, |images|);
  }
}
