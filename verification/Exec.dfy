/** kernel/syscall/execv.c: build the address space of a new program. */
module Exec {
  import opened Memory
  import opened Paging
  import opened Unmapping
  import opened KernelMap
  import opened Growing
  import opened Forking
  import opened Losses
  import opened Virtual
  import opened FileSpec
  import opened Elf
  import opened Loading
  import opened Strings
  import opened UserStack
  import opened Allocator
  import opened Vm
  import opened UserMemory

  /** Program header i gets as far as writing memory. */
  predicate SegmentLoads(f: seq<byte>, i: nat)
    requires HasHeader(f)
  {
    && Loadable(f, i)
    && var p := Ph(f, i);
       0 < p.memsz && p.filesz <= p.memsz && p.vaddr + p.memsz < USEREND && p.vaddr % PAGESIZE == 0
  }

  /** Every segment that execv gets to load lies in user space; files that are no programs, and headers behind one
      that stops execv, are not concerned. */
  predicate UserSegments(f: seq<byte>) {
    HasHeader(f) && U32(f, 0) == ELF_MAGIC ==>
      forall i :: 0 <= i < PhNum(f) && (forall j :: 0 <= j < i ==> SegmentSane(f, j)) && SegmentLoads(f, i) ==>
        KERNEND <= Ph(f, i).vaddr
  }

  /** Exec's new space after k program headers. */
  ghost predicate Loaded(m: Machine, s0: State, e: nat, f: seq<byte>, k: nat, va: word)
    reads m, m.mem
  {
    && m.Valid() && Good(m.kend, s0) && HasHeader(f)
    && NewSpace(s0, m.View(), e, m.rodata, CeilPage(va)) && ShowsImage(m.View(), e, f, k)
    && e in m.spaces && AllUserPages(m.spaces[e])
    && KERNEND <= va < USEREND && va == ImageEnd(f, k) && forall i :: 0 <= i < k ==> SegmentSane(f, i)
  }

  /** How many user pages the first k headers need. */
  function ImagePages(f: seq<byte>, k: nat): nat
    requires HasHeader(f)
  {
    CeilPage(ImageEnd(f, k)) - UPAGE
  }

  /** The only two reasons for header k to stop exec. */
  ghost predicate SegmentStuck(s0: State, f: seq<byte>, k: nat) {
    HasHeader(f) && (!SegmentSane(f, k) || |s0.free| < ForkCost(ImagePages(f, k + 1)))
  }

  /** allocuvm on the new space: the region reaches the end of segment k, or is what it was. */
  method MakeRoom(m: Machine, pgdir: word, f: seq<byte>, k: nat, va: word, to: word, ghost s0: State)
    returns (end: word)
    requires IsDir(m, pgdir) && Loaded(m, s0, pgdir / PAGESIZE, f, k, va)
    modifies m.mem, m`coremap, m`free, m`owner, m`spaces
    ensures m.Valid() && IsDir(m, pgdir)
    ensures end == 0 ==> to >= USEREND || (va <= to && |s0.free| < ForkCost(CeilPage(to) - UPAGE))
    ensures end == 0 ==> GivenUp(s0, m.View(), pgdir / PAGESIZE)
    ensures end != 0 ==>
              && to < USEREND && end == (if to < va then va else to) && HasHeader(f)
              && NewSpace(s0, m.View(), pgdir / PAGESIZE, m.rodata, CeilPage(end))
              && ShowsImage(m.View(), pgdir / PAGESIZE, f, k) && AllUserPages(m.spaces[pgdir / PAGESIZE])
  {
    hide Good, NewSpace, ShowsImage, Grown, OnlyInto, RolledBack, AllUserPages, ForkCost, Cost, ImageEnd, SegmentSane;
    ghost var e, s, rodata := pgdir / PAGESIZE, m.View(), m.rodata;
    NewSpaceFacts(s0, s, e, rodata, CeilPage(va));
    end := AllocUvm(m, pgdir, va, to);
    if end == 0 {
      AllocFailed(m.kend, s0, s, m.View(), e, rodata, CeilPage(va));
      if to < USEREND {
        TooFewPages(s0, s, e, rodata, CeilPage(va), CeilPage(to) - CeilPage(va));
      }
    } else {
      AllocWorked(m.kend, s0, s, m.View(), e, rodata, f, k, va, end);
    }
  }

  /** One program header: check it, make room, read the file part and clear the rest. On failure the space is
      still one that can be given back whole. */
  method LoadSegment(m: Machine, pgdir: word, f: seq<byte>, k: nat, va: word, ghost s0: State)
    returns (ok: bool, end: word)
    requires IsDir(m, pgdir) && Loaded(m, s0, pgdir / PAGESIZE, f, k, va) && k < PhNum(f)
    requires FileFits(f) && UserSegments(f) && U32(f, 0) == ELF_MAGIC
    modifies m.mem, m`coremap, m`free, m`owner, m`spaces
    ensures m.Valid() && IsDir(m, pgdir)
    ensures ok ==> Loaded(m, s0, pgdir / PAGESIZE, f, k + 1, end)
    ensures !ok ==> GivenUp(s0, m.View(), pgdir / PAGESIZE) && SegmentStuck(s0, f, k)
  {
    hide Good, NewSpace, ShowsImage, GivenUp, AllUserPages, Ph, PhOff, ReadCount, ImageByte, ForkCost, U32;
    ghost var e, s, rodata := pgdir / PAGESIZE, m.View(), m.rodata;
    NewSpaceFacts(s0, s, e, rodata, CeilPage(va));
    if ReadCount(|f|, PhOff(f, k), PROGHDR) != PROGHDR {
      return false, va;
    }
    var ph := Ph(f, k);
    if ph.kind != ELF_PROG_LOAD {
      ImageSkip(s, e, f, k);
      return true, va;
    }
    if ph.memsz < ph.filesz {
      return false, va;
    }
    if (ph.vaddr + ph.memsz) % 0x1_0000_0000 < ph.vaddr {
      return false, va;
    }
    end := MakeRoom(m, pgdir, f, k, va, ph.vaddr + ph.memsz, s0);
    if end == 0 {
      return false, va;
    }
    NewSpaceFacts(s0, m.View(), e, rodata, CeilPage(end));
    if ph.vaddr % PAGESIZE != 0 {
      return false, va;
    }
    ok := FillSegment(m, pgdir, f, k, ph, CeilPage(end), s0);
    NewSpaceFacts(s0, m.View(), e, rodata, CeilPage(end));
  }

  /** The bytes of segment k: the file part is read, the rest is cleared. */
  method FillSegment(m: Machine, pgdir: word, f: seq<byte>, k: nat, ph: Segment, ghost top: nat,
      ghost s0: State) returns (ok: bool)
    requires m.Valid() && IsDir(m, pgdir) && HasHeader(f) && FileFits(f) && Loadable(f, k) && ph == Ph(f, k)
    requires (0 < ph.memsz ==> KERNEND <= ph.vaddr) && ph.vaddr % PAGESIZE == 0 && ph.filesz <= ph.memsz
    requires ph.vaddr + ph.memsz <= top * PAGESIZE && ph.vaddr + ph.memsz <= USEREND
    requires NewSpace(s0, m.View(), pgdir / PAGESIZE, m.rodata, top) && ShowsImage(m.View(), pgdir / PAGESIZE, f, k)
    requires Good(m.kend, s0)
    modifies m.mem, m`coremap, m`free, m`owner, m`spaces
    ensures m.Valid() && IsDir(m, pgdir) && m.spaces == old(m.spaces)
    ensures NewSpace(s0, m.View(), pgdir / PAGESIZE, m.rodata, top)
    ensures ok <==> ph.filesz == 0 || ph.off + ph.filesz <= |f|
    ensures ok ==> ShowsImage(m.View(), pgdir / PAGESIZE, f, k + 1)
  {
    hide Good, NewSpace, ShowsImage, Wrote, U32, ReadCount, ImageByte;
    ghost var e, t, rodata, zeros := pgdir / PAGESIZE, m.View(), m.rodata, Zeros(ph.memsz - ph.filesz);
    NewSpaceFacts(s0, t, e, rodata, top);
    SegmentAddr(m.kend, t, e, top, ph.vaddr, ph.memsz);
    ghost var loaded;
    var r;
    r, loaded := LoadUvm(m, pgdir, ph.vaddr, f, ph.off, ph.filesz);
    ghost var u := m.View();
    WroteSame(e, t, u, ph.vaddr, loaded);
    NewSpaceWritten(m.kend, s0, t, u, e, rodata, top, ph.vaddr, loaded);
    if r < 0 {
      return false;
    }
    NewSpaceFacts(s0, u, e, rodata, top);
    SegmentAddr(m.kend, u, e, top, ph.vaddr, ph.memsz);
    CopyOut(m, pgdir, ph.vaddr + ph.filesz, Null, ph.memsz - ph.filesz);
    WroteSame(e, u, m.View(), ph.vaddr + ph.filesz, zeros);
    NewSpaceWritten(m.kend, s0, u, m.View(), e, rodata, top, ph.vaddr + ph.filesz, zeros);
    ImageLoaded(t, u, m.View(), e, f, k, loaded, zeros);
    ok := true;
  }

  lemma SegmentAddr(kend: nat, s: State, e: nat, top: nat, va: nat, len: nat)
    requires e in s.spaces && UserRegion(s.spaces[e], top) && (0 < len ==> KERNEND <= va) && va + len <= top * PAGESIZE
    requires Good(kend, s)
    ensures forall a: nat :: va <= a < va + len ==> UserAddr(s, e, a)
  {
    hide Good, UserAddr;
    if 0 < len {
      RegionAddr(kend, s, e, top, va, len);
    }
  }

  lemma NewSpaceFacts(s0: State, s: State, e: nat, rodata: nat, top: nat)
    requires NewSpace(s0, s, e, rodata, top)
    ensures GivenUp(s0, s, e) && e in s.spaces && UserRegion(s.spaces[e], top)
  {
  }

  lemma TooFewPages(s0: State, s: State, e: nat, rodata: nat, top: nat, n: nat)
    requires NewSpace(s0, s, e, rodata, top) && |s.free| < Cost(s.spaces[e].tabs, top, n)
    ensures |s0.free| < ForkCost(top + n - UPAGE)
  {
    CostAdds(s.spaces[e].tabs, top, n);
  }

  /** allocuvm returned 0: either the request was refused or the mappings are what they were. */
  lemma AllocFailed(kend: nat, s0: State, s: State, t: State, e: nat, rodata: nat, top: nat)
    requires NewSpace(s0, s, e, rodata, top) && (t == s || exists k :: RolledBack(e, s, t, top, k)) && Good(kend, s0)
    ensures GivenUp(s0, t, e)
  {
    if t != s {
      var k :| RolledBack(e, s, t, top, k);
      NewSpaceRolledBack(kend, s0, s, t, e, rodata, top, k);
    }
  }

  /** allocuvm succeeded: the region reaches to `end` and still shows the image. */
  lemma AllocWorked(kend: nat, s0: State, s: State, t: State, e: nat, rodata: nat, f: seq<byte>, k: nat, va: word,
                    end: word)
    requires HasHeader(f) && NewSpace(s0, s, e, rodata, CeilPage(va)) && ShowsImage(s, e, f, k)
    requires AllUserPages(s.spaces[e])
    requires va == ImageEnd(f, k) && KERNEND <= va < USEREND && va <= end < USEREND
    requires (t == s && end == va) || Grown(e, s, t, CeilPage(va), ClearPages(CeilPage(end) - CeilPage(va)))
    requires Good(kend, s0) && Good(kend, s)
    ensures NewSpace(s0, t, e, rodata, CeilPage(end)) && ShowsImage(t, e, f, k) && AllUserPages(t.spaces[e])
  {
    hide Good, ShowsImage, AllUserPages, Grown;
    if t != s || end != va {
      var n := CeilPage(end) - CeilPage(va);
      NewSpaceFacts(s0, s, e, rodata, CeilPage(va));
      NewSpaceGrows(kend, s0, s, t, e, rodata, CeilPage(va), ClearPages(n));
      ImageGrows(kend, s, t, e, f, k, CeilPage(va), ClearPages(n));
      FlagsGrow(s, t, e, CeilPage(va), n);
    }
  }

  // ---- the user stack ------------------------------------------------------------------------

  /** The flags of the finished space: everything is the user's but the guard page under the stack. */
  ghost predicate GuardedFlags(sp: Space, top: nat) {
    forall v :: v in sp.pages && UPAGE <= v ==>
      sp.pages[v].flags == if v + 2 == top then PTE_P + PTE_W else PTE_P + PTE_W + PTE_U
  }

  /** User memory of e below address `limit` is the image of the file. */
  ghost predicate ImageBelow(s: State, e: nat, f: seq<byte>, limit: int)
    requires HasHeader(f)
  {
    forall a: nat :: UserAddr(s, e, a) && a < limit ==> UserByte(s, e, a) == ImageByte(f, PhNum(f), a)
  }

  /** Pushing: the first k arguments are on the stack, everything below is still the image. */
  ghost predicate Pushing(m: Machine, s0: State, e: nat, f: seq<byte>, tp: nat, args: seq<seq<byte>>, k: nat)
    reads m, m.mem
  {
    && m.Valid() && Good(m.kend, s0) && HasHeader(f) && Fits(args, tp) && k <= |args| && UPAGE + 2 <= tp <= UTOP
    && Pushed(s0, m.View(), e, m.rodata, f, tp, args, k, SpAfter(tp * PAGESIZE, args, k))
  }

  ghost predicate Pushed(s0: State, s: State, e: nat, rodata: nat, f: seq<byte>, tp: nat, args: seq<seq<byte>>,
      k: nat, limit: int)
    requires HasHeader(f) && AreArgs(args) && k <= |args|
  {
    NewSpace(s0, s, e, rodata, tp) && ArgsShown(s, e, tp * PAGESIZE, args, k) && ImageBelow(s, e, f, limit)
  }

  /** A write below everything pushed so far. */
  lemma PushKeeps(kend: nat, s0: State, s: State, t: State, e: nat, rodata: nat, f: seq<byte>, tp: nat,
                  args: seq<seq<byte>>, k: nat, limit: int, va: nat, data: seq<byte>)
    requires HasHeader(f) && AreArgs(args) && k <= |args| && Pushed(s0, s, e, rodata, f, tp, args, k, limit)
    requires Wrote(e, s, t, va, data) && va + |data| <= SpAfter(tp * PAGESIZE, args, k) && va <= limit && Good(kend, s0)
    ensures Pushed(s0, t, e, rodata, f, tp, args, k, va) && t.spaces == s.spaces
  {
    hide Good, NewSpace, ImageByte, SpAfter;
    var top := tp * PAGESIZE;
    NewSpaceWritten(kend, s0, s, t, e, rodata, tp, va, data);
    AlignedPage(tp);
    forall i | 0 <= i < k
      ensures ArgShown(t, e, top, args, i)
    {
      assert ArgShown(s, e, top, args, i);
      SpDescends(top, args, i + 1, k);
      ShowsKept(e, s, t, va, data, SpAfter(top, args, i + 1), ArgBytes(args[i]));
    }
    forall a: nat | UserAddr(t, e, a) && a < va
      ensures UserByte(t, e, a) == ImageByte(f, PhNum(f), a)
    {
      assert UserAddr(s, e, a);
    }
  }

  /** The string of argument k is pushed. */
  lemma PushedNext(kend: nat, s0: State, s: State, t: State, e: nat, rodata: nat, f: seq<byte>, tp: nat,
                   args: seq<seq<byte>>, k: nat, sp: nat)
    requires HasHeader(f) && Fits(args, tp) && k < |args| && UPAGE + 2 <= tp <= UTOP
    requires sp == SpAfter(tp * PAGESIZE, args, k + 1)
    requires Pushed(s0, s, e, rodata, f, tp, args, k, SpAfter(tp * PAGESIZE, args, k))
    requires Wrote(e, s, t, sp, ArgBytes(args[k])) && Good(kend, s0) && Good(kend, s)
    ensures Pushed(s0, t, e, rodata, f, tp, args, k + 1, sp) && t.spaces == s.spaces
  {
    hide Good, NewSpace, ImageBelow, Wrote, SpAfter;
    SpStep(tp * PAGESIZE, args, k);
    SpInRegion(tp, args, k + 1);
    SpInRegion(tp, args, k);
    NewSpaceFacts(s0, s, e, rodata, tp);
    RegionAddr(kend, s, e, tp, sp, |ArgBytes(args[k])|);
    PushKeeps(kend, s0, s, t, e, rodata, f, tp, args, k, SpAfter(tp * PAGESIZE, args, k), sp, ArgBytes(args[k]));
    ShowsWritten(e, s, t, sp, ArgBytes(args[k]));
    ArgsShownNext(t, e, tp * PAGESIZE, args, k);
  }

  /** Copy the argument strings to the stack, one below the other; argvec remembers where each one went. */
  method PushArgs(m: Machine, pgdir: word, f: seq<byte>, top: word, args: seq<seq<byte>>, ghost s0: State,
                  ghost tp: nat)
    returns (sp: word, argvec: seq<word>)
    requires top == tp * PAGESIZE && IsDir(m, pgdir) && Pushing(m, s0, pgdir / PAGESIZE, f, tp, args, 0)
    modifies m.mem, m`coremap, m`free, m`owner, m`spaces
    ensures IsDir(m, pgdir) && Pushing(m, s0, pgdir / PAGESIZE, f, tp, args, |args|) && m.spaces == old(m.spaces)
    ensures sp == SpAfter(top, args, |args|) && argvec == Vector(top, args)
  {
    hide Good, Pushed, Wrote, SpAfter;
    ghost var e := pgdir / PAGESIZE;
    sp := top;
    argvec := seq(MAXARG, _ => 0);
    var argc := 0;
    SpZero(top, args);
    while argc < |args|
      invariant argc <= |args| && IsDir(m, pgdir) && Pushing(m, s0, e, f, tp, args, argc) && m.spaces == old(m.spaces)
      invariant sp == SpAfter(top, args, argc) && |argvec| == MAXARG
      invariant forall i :: 0 <= i < MAXARG ==> argvec[i] == if i < argc then SpAfter(top, args, i + 1) else 0
    {
      ghost var s := m.View();
      SpStep(top, args, argc);
      SpInRegion(tp, args, argc + 1);
      SpInRegion(tp, args, argc);
      PushedRoom(m.kend, s0, s, e, m.rodata, f, tp, args, argc);
      var len := StrLen(args[argc]);
      sp := sp - (len + 1) - (sp - (len + 1)) % 4;
      CopyOut(m, pgdir, sp, Bytes(args[argc]), len + 1);
      PushedNext(m.kend, s0, s, m.View(), e, m.rodata, f, tp, args, argc, sp);
      argvec := argvec[argc := sp];
      argc := argc + 1;
    }
  }

  lemma PushedRoom(kend: nat, s0: State, s: State, e: nat, rodata: nat, f: seq<byte>, tp: nat, args: seq<seq<byte>>,
                   k: nat)
    requires HasHeader(f) && Fits(args, tp) && k < |args| && UPAGE + 2 <= tp <= UTOP && Good(kend, s)
    requires Pushed(s0, s, e, rodata, f, tp, args, k, SpAfter(tp * PAGESIZE, args, k))
    ensures SpAfter(tp * PAGESIZE, args, k + 1) >= 0
    ensures UserRange(s, e, SpAfter(tp * PAGESIZE, args, k + 1), Length(args[k]) + 2)
  {
    hide Good;
    SpStep(tp * PAGESIZE, args, k);
    SpInRegion(tp, args, k + 1);
    SpInRegion(tp, args, k);
    RegionAddr(kend, s, e, tp, SpAfter(tp * PAGESIZE, args, k + 1), Length(args[k]) + 2);
  }

  lemma SpZero(top: int, args: seq<seq<byte>>)
    requires AreArgs(args)
    ensures SpAfter(top, args, 0) == top
  {
  }

  lemma SpStep(top: int, args: seq<seq<byte>>, k: nat)
    requires AreArgs(args) && k < |args|
    ensures var sp := SpAfter(top, args, k) - (Length(args[k]) + 2); SpAfter(top, args, k + 1) == sp - sp % 4
    ensures SpAfter(top, args, k + 1) + |ArgBytes(args[k])| <= SpAfter(top, args, k)
  {
  }

  /** Every stack pointer on the way is in user memory, with room for the vector and the head below. */
  lemma SpInRegion(tp: nat, args: seq<seq<byte>>, k: nat)
    requires Fits(args, tp) && k <= |args|
    ensures KERNEND + VECTOR + HEAD <= SpAfter(tp * PAGESIZE, args, k) <= tp * PAGESIZE
    ensures SpAfter(tp * PAGESIZE, args, k) % 4 == 0
  {
    AlignedPage(tp);
    SpShift(tp * PAGESIZE, args, |args|);
    SpDescends(tp * PAGESIZE, args, k, |args|);
    SpDescends(tp * PAGESIZE, args, 0, k);
  }

  lemma AlignedPage(tp: nat)
    ensures tp * PAGESIZE % 4 == 0
  {
    assert tp * PAGESIZE == 4 * (1024 * tp);
  }

  lemma ArgsShownNext(s: State, e: nat, top: nat, args: seq<seq<byte>>, k: nat)
    requires AreArgs(args) && k < |args| && ArgsShown(s, e, top, args, k)
    requires SpAfter(top, args, k + 1) >= 0 && Shows(s, e, SpAfter(top, args, k + 1), ArgBytes(args[k]))
    ensures ArgsShown(s, e, top, args, k + 1)
  {
    assert ArgShown(s, e, top, args, k);
  }

  /** The new program's memory: the image of the file, and on top of it the argument block. */
  ghost predicate ProgramReady(s0: State, s: State, e: nat, rodata: nat, f: seq<byte>, tp: nat, args: seq<seq<byte>>,
                               sp: nat)
    requires HasHeader(f) && AreArgs(args)
  {
    && NewSpace(s0, s, e, rodata, tp) && GuardedFlags(s.spaces[e], tp)
    && StackBuilt(s, e, tp * PAGESIZE, args, sp) && ImageBelow(s, e, f, sp)
  }

  /** The stack of a new program: strings, vector, head. */
  method WriteStack(m: Machine, pgdir: word, f: seq<byte>, top: word, args: seq<seq<byte>>, ghost s0: State,
                    ghost tp: nat)
    returns (sp: word)
    requires top == tp * PAGESIZE && IsDir(m, pgdir) && Pushing(m, s0, pgdir / PAGESIZE, f, tp, args, 0)
    requires GuardedFlags(m.spaces[pgdir / PAGESIZE], tp)
    modifies m.mem, m`coremap, m`free, m`owner, m`spaces
    ensures m.Valid() && IsDir(m, pgdir)
    ensures ProgramReady(s0, m.View(), pgdir / PAGESIZE, m.rodata, f, tp, args, sp)
  {
    hide Good, NewSpace, ArgsShown, ImageBelow, Wrote, SpAfter, StackBuilt, WordBytes, Shows, GuardedFlags;
    ghost var e, rodata := pgdir / PAGESIZE, m.rodata;
    SpInRegion(tp, args, |args|);
    SpShiftNeed(tp, args);
    var argvec;
    sp, argvec := PushArgs(m, pgdir, f, top, args, s0, tp);
    ghost var s := m.View();
    sp := sp - VECTOR;
    var head := [0xFFFF_FFFF, |args|, sp];
    sp := sp - HEAD;
    WordBytesLength(argvec);
    WordBytesLength(head);
    PushedFacts(m.kend, s0, s, e, rodata, f, tp, args, SpAfter(top, args, |args|), sp, VECTOR + HEAD);
    CopyOut(m, pgdir, sp + HEAD, Bytes(WordBytes(argvec)), VECTOR);
    ghost var t := m.View();
    PushKeeps(m.kend, s0, s, t, e, rodata, f, tp, args, |args|, SpAfter(top, args, |args|), sp + HEAD,
        WordBytes(argvec)[..VECTOR]);
    ShowsWritten(e, s, t, sp + HEAD, WordBytes(argvec)[..VECTOR]);
    PushedFacts(m.kend, s0, t, e, rodata, f, tp, args, sp + HEAD, sp, HEAD);
    CopyOut(m, pgdir, sp, Bytes(WordBytes(head)), HEAD);
    PushKeeps(m.kend, s0, t, m.View(), e, rodata, f, tp, args, |args|, sp + HEAD, sp, WordBytes(head)[..HEAD]);
    ShowsWritten(e, t, m.View(), sp, WordBytes(head)[..HEAD]);
    ShowsKept(e, t, m.View(), sp, WordBytes(head)[..HEAD], sp + HEAD, WordBytes(argvec)[..VECTOR]);
    assert WordBytes(head)[..HEAD] == WordBytes(head) && WordBytes(argvec)[..VECTOR] == WordBytes(argvec);
    BuiltFromShown(m.View(), e, top, args, sp, argvec, head);
  }

  lemma SpShiftNeed(tp: nat, args: seq<seq<byte>>)
    requires AreArgs(args)
    ensures SpAfter(tp * PAGESIZE, args, |args|) - VECTOR - HEAD == tp * PAGESIZE - Need(args)
  {
    AlignedPage(tp);
    SpShift(tp * PAGESIZE, args, |args|);
  }

  lemma PushedFacts(kend: nat, s0: State, s: State, e: nat, rodata: nat, f: seq<byte>, tp: nat,
      args: seq<seq<byte>>, limit: int, va: nat, len: nat)
    requires HasHeader(f) && AreArgs(args) && Pushed(s0, s, e, rodata, f, tp, args, |args|, limit)
    requires KERNEND <= va && va + len <= tp * PAGESIZE && Good(kend, s)
    ensures UserRange(s, e, va, len)
  {
    hide Good, ArgsShown, ImageBelow;
    NewSpaceFacts(s0, s, e, rodata, tp);
    RegionAddr(kend, s, e, tp, va, len);
  }

  // ---- the whole of execv up to the point where the new program is installed -----------------

  /** f is a program that execv accepts. */
  predicate Executable(f: seq<byte>) {
    && HasHeader(f) && U32(f, 0) == ELF_MAGIC
    && (forall i :: 0 <= i < PhNum(f) ==> SegmentSane(f, i))
    && (CeilPage(ImageEnd(f, PhNum(f))) + 2) * PAGESIZE < USEREND
  }

  /** The pages execv takes for program f: image, guard page and stack, their tables, and the kernel half. */
  function ExecCost(f: seq<byte>): nat
    requires HasHeader(f)
  {
    ForkCost(ImagePages(f, PhNum(f)) + 2)
  }

  /** Where the stack of program f ends, in pages. */
  function StackTop(f: seq<byte>): nat
    requires HasHeader(f)
  {
    CeilPage(ImageEnd(f, PhNum(f))) + 2
  }

  lemma {:induction false} ImageEndMono(f: seq<byte>, j: nat, k: nat)
    requires HasHeader(f) && j <= k
    ensures ImageEnd(f, j) <= ImageEnd(f, k)
  {
    if j < k {
      ImageEndMono(f, j, k - 1);
    }
  }

  /** A header that stops execv stops it for good. */
  lemma StuckIsFinal(s0: State, f: seq<byte>, k: nat)
    requires SegmentStuck(s0, f, k) && k < PhNum(f)
    ensures !Executable(f) || |s0.free| < ExecCost(f)
  {
    ImageEndMono(f, k + 1, PhNum(f));
  }

  /** The two stack pages are in place above the image. */
  lemma StackPages(kend: nat, s0: State, s: State, t: State, e: nat, rodata: nat, f: seq<byte>, args: seq<seq<byte>>,
                   va: word)
    requires HasHeader(f) && AreArgs(args) && NewSpace(s0, s, e, rodata, CeilPage(va)) && ShowsImage(s, e, f, PhNum(f))
    requires e in s.spaces && AllUserPages(s.spaces[e]) && va == ImageEnd(f, PhNum(f))
    requires Grown(e, s, t, CeilPage(va), [GUARD_PAGE, CLEAR_PAGE]) && Good(kend, s0) && Good(kend, s)
    ensures var tp := CeilPage(va) + 2;
            && Pushed(s0, t, e, rodata, f, tp, args, 0, SpAfter(tp * PAGESIZE, args, 0))
            && GuardedFlags(t.spaces[e], tp)
  {
    hide Good, ImageByte, ImageEnd;
    var top, images := CeilPage(va), [GUARD_PAGE, CLEAR_PAGE];
    NewSpaceGrows(kend, s0, s, t, e, rodata, top, images);
    ImageGrows(kend, s, t, e, f, PhNum(f), top, images);
    StackFlags(s, t, e, top);
    hide Grown, NewSpace;
  }

  lemma StackFlags(s: State, t: State, e: nat, top: nat)
    requires e in s.spaces && AllUserPages(s.spaces[e]) && UserRegion(s.spaces[e], top)
    requires Grown(e, s, t, top, [GUARD_PAGE, CLEAR_PAGE]) && UPAGE <= top
    ensures GuardedFlags(t.spaces[e], top + 2)
  {
    hide OwnersGrow;
    var images := [GUARD_PAGE, CLEAR_PAGE];
    assert t.spaces[e].pages[top].flags == images[0].flags && t.spaces[e].pages[top + 1].flags == images[1].flags;
  }

  /** Load all program headers into the new directory; false as soon as one stops execv. */
  method LoadImage(m: Machine, pgdir: word, f: seq<byte>, ghost s0: State) returns (ok: bool, va: word)
    requires m.Valid() && IsDir(m, pgdir) && HasHeader(f) && FileFits(f) && UserSegments(f) && U32(f, 0) == ELF_MAGIC
    requires Good(m.kend, s0) && Building(s0, m.View(), pgdir / PAGESIZE, m.rodata, NP)
    modifies m.mem, m`coremap, m`free, m`owner, m`spaces
    ensures m.Valid() && IsDir(m, pgdir)
    ensures ok ==> Loaded(m, s0, pgdir / PAGESIZE, f, PhNum(f), va)
    ensures !ok ==>
              && (!Executable(f) || |s0.free| < ExecCost(f))
              && GivenUp(s0, m.View(), pgdir / PAGESIZE)
  {
    hide Good, NewSpace, ShowsImage, AllUserPages, GivenUp, Building, SegmentSane, SegmentStuck, Executable, U32;
    NewSpaceStart(s0, m.View(), pgdir / PAGESIZE, m.rodata, f);
    va := KERNEND;
    var i := 0;
    while i < PhNum(f)
      invariant 0 <= i <= PhNum(f) && IsDir(m, pgdir) && Loaded(m, s0, pgdir / PAGESIZE, f, i, va)
    {
      ok, va := LoadSegment(m, pgdir, f, i, va, s0);
      if !ok {
        StuckIsFinal(s0, f, i);
        return false, va;
      }
      i := i + 1;
    }
    ok := true;
  }

  /** ustack and what goes on it; top is 0 if there is no room for it. */
  method AddStack(m: Machine, pgdir: word, f: seq<byte>, va: word, args: seq<seq<byte>>, ghost s0: State)
    returns (top: word, sp: word)
    requires HasHeader(f) && IsDir(m, pgdir) && Loaded(m, s0, pgdir / PAGESIZE, f, PhNum(f), va)
    requires U32(f, 0) == ELF_MAGIC && ArgsFit(f, args, |s0.free|)
    modifies m.mem, m`coremap, m`free, m`owner, m`spaces
    ensures m.Valid() && IsDir(m, pgdir)
    ensures top != 0 ==>
              && top == StackTop(f) * PAGESIZE && Executable(f) && |s0.free| >= ExecCost(f)
              && ProgramReady(s0, m.View(), pgdir / PAGESIZE, m.rodata, f, StackTop(f), args, sp)
    ensures top == 0 ==>
              && (!Executable(f) || |s0.free| < ExecCost(f))
              && GivenUp(s0, m.View(), pgdir / PAGESIZE)
  {
    hide Good, NewSpace, ShowsImage, AllUserPages, GivenUp, SegmentSane, Pushed, GuardedFlags, Grown, RolledBack,
         ForkCost, U32, ProgramReady;
    ghost var e, s, rodata := pgdir / PAGESIZE, m.View(), m.rodata;
    NewSpaceFacts(s0, s, e, rodata, CeilPage(va));
    top := UStack(m, pgdir, va);
    if top == 0 {
      AllocFailed(m.kend, s0, s, m.View(), e, rodata, CeilPage(va));
      StackTooBig(s0, s, e, rodata, f, va);
      return 0, 0;
    }
    StackFits(s0, s, e, rodata, f, va);
    StackPages(m.kend, s0, s, m.View(), e, rodata, f, args, va);
    sp := WriteStack(m, pgdir, f, top, args, s0, CeilPage(va) + 2);
  }

  /** The free pages left after a failed execv: a file that is no program costs nothing. */
  function AfterExec(f: seq<byte>, free: nat): nat {
    if HasHeader(f) && U32(f, 0) == ELF_MAGIC then AfterFailure(free) else free
  }

  /** If execv gets to the stack, the argument block fits in the user pages there are; else copyout panics. */
  ghost predicate ArgsFit(f: seq<byte>, args: seq<seq<byte>>, free: nat) {
    AreArgs(args) && (Executable(f) && free >= ExecCost(f) ==> Fits(args, StackTop(f)))
  }

  /** Build the address space of program f with the given arguments. Fails exactly when f is not executable or
      there are too few pages, and then leaves nothing but kernel tables behind. */
  method BuildProgram(m: Machine, f: seq<byte>, args: seq<seq<byte>>) returns (pgdir: word, top: word, sp: word)
    requires m.Valid() && FileFits(f) && UserSegments(f) && ArgsFit(f, args, |m.free|)
    modifies m.mem, m`coremap, m`free, m`owner, m`spaces
    ensures m.Valid()
    ensures pgdir != 0 <==> Executable(f) && |old(m.free)| >= ExecCost(f)
    ensures pgdir != 0 ==>
              && IsDir(m, pgdir) && top == StackTop(f) * PAGESIZE
              && ProgramReady(old(m.View()), m.View(), pgdir / PAGESIZE, m.rodata, f, StackTop(f), args, sp)
    ensures pgdir == 0 ==> LeftBehind(old(m.View()), m.View()) && |m.free| == AfterExec(f, |old(m.free)|)
  {
    hide Good, NewSpace, ShowsImage, AllUserPages, GivenUp, Building, LeftBehind, Dismantled, Executable, ForkCost,
         ProgramReady, U32;
    ghost var s0 := m.View();
    ValidSizes(m.kend, s0);
    NothingLeftBehind(s0);
    top, sp := 0, 0;
    MustHaveHeader(f);
    if ReadCount(|f|, 0, ELFHDR) != ELFHDR {
      return 0, 0, 0;
    }
    if U32(f, 0) != ELF_MAGIC {
      return 0, 0, 0;
    }
    pgdir := SetupKvm(m);
    if pgdir == 0 {
      CostAtLeast(ImagePages(f, PhNum(f)) + 2);
      return 0, 0, 0;
    }
    ghost var e, rodata := pgdir / PAGESIZE, m.rodata;
    BuildingFacts(s0, m.View(), e, rodata, 0);
    var ok, va := LoadImage(m, pgdir, f, s0);
    if ok {
      top, sp := AddStack(m, pgdir, f, va, args, s0);
      if top != 0 {
        return pgdir, top, sp;
      }
    }
    ghost var t := m.View();
    FreeVm(m, pgdir);
    GivenUpCount(m.kend, s0, t, m.View(), e);
    return 0, 0, 0;
  }

  /** An argument block of at most a page leaves the guard page and all below it as the image has it: the guard page
      shows zeros. */
  lemma GuardUntouched(s0: State, s: State, e: nat, rodata: nat, f: seq<byte>, args: seq<seq<byte>>, sp: nat, a: nat)
    requires HasHeader(f) && AreArgs(args) && ProgramReady(s0, s, e, rodata, f, StackTop(f), args, sp)
    requires Need(args) <= PAGESIZE && UserAddr(s, e, a) && a < (StackTop(f) - 1) * PAGESIZE
    ensures UserByte(s, e, a) == ImageByte(f, PhNum(f), a)
    ensures (StackTop(f) - 2) * PAGESIZE <= a ==> UserByte(s, e, a) == 0
  {
    hide NewSpace, GuardedFlags, ArgsShown, ImageByte, ImageEnd;
    if ImageEnd(f, PhNum(f)) <= a {
      ImageBelowEnd(f, PhNum(f), a);
    }
  }

  lemma MustHaveHeader(f: seq<byte>)
    ensures Executable(f) ==> HasHeader(f) && U32(f, 0) == ELF_MAGIC
  {
  }

  lemma CostAtLeast(n: nat)
    ensures ForkCost(n) >= KTABS + 1
  {
  }

  lemma StackTooBig(s0: State, s: State, e: nat, rodata: nat, f: seq<byte>, va: word)
    requires HasHeader(f) && va == ImageEnd(f, PhNum(f)) && NewSpace(s0, s, e, rodata, CeilPage(va))
    requires !((CeilPage(va) + 2) * PAGESIZE < USEREND && |s.free| >= Cost(s.spaces[e].tabs, CeilPage(va), 2))
    ensures !Executable(f) || |s0.free| < ExecCost(f)
  {
    if |s.free| < Cost(s.spaces[e].tabs, CeilPage(va), 2) {
      TooFewPages(s0, s, e, rodata, CeilPage(va), 2);
    }
  }

  lemma StackFits(s0: State, s: State, e: nat, rodata: nat, f: seq<byte>, va: word)
    requires HasHeader(f) && va == ImageEnd(f, PhNum(f)) && NewSpace(s0, s, e, rodata, CeilPage(va))
    requires |s.free| >= Cost(s.spaces[e].tabs, CeilPage(va), 2)
    ensures |s0.free| >= ExecCost(f)
  {
    CostAdds(s.spaces[e].tabs, CeilPage(va), 2);
  }
}
