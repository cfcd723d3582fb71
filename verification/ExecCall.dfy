/** kernel/syscall/execv.c on the whole machine: install the new program or change nothing. */
module ExecCall {
  import opened Memory
  import opened Paging
  import opened Mapping
  import opened Unmapping
  import opened KernelMap
  import opened Forking
  import opened Virtual
  import opened FileSpec
  import opened Elf
  import opened Loading
  import opened UserStack
  import opened Vm
  import opened Exec
  import opened ProcTable
  import opened KernelMem
  import opened Files
  import opened SwitchCalls

  // ---- the new program is not disturbed by giving back the old one ---------------------------

  /** The user memory of e is the same in both states. */
  ghost predicate SameUserMemory(s: State, t: State, e: nat) {
    forall a: nat {:trigger UserAddr(s, e, a)} {:trigger UserAddr(t, e, a)} ::
      (UserAddr(s, e, a) <==> UserAddr(t, e, a)) && (UserAddr(s, e, a) ==> UserByte(t, e, a) == UserByte(s, e, a))
  }

  lemma DismantleApart(kend: nat, s: State, t: State, d: nat, e: nat)
    requires Good(kend, s) && Dismantled(d, s, t) && e in s.spaces && e != d
    ensures SameUserMemory(s, t, e) && e in t.spaces && t.spaces[e] == s.spaces[e]
  {
    hide Good;
    forall a: nat | UserAddr(s, e, a)
      ensures UserByte(t, e, a) == UserByte(s, e, a)
    {
      FrameOwner(kend, s, e, a / PAGESIZE);
    }
  }

  /** While the new program is built the caller's own memory, and so the arguments in it, stays what it was; it
      does not matter at which point execv reads them. */
  lemma CallerUndisturbed(kend: nat, s: State, t: State, d: nat, e: nat)
    requires d in s.spaces && e !in s.spaces && e in t.spaces && t.spaces == s.spaces[e := t.spaces[e]]
    requires OnlyInto(e, s, t) && Good(kend, s)
    ensures SameUserMemory(s, t, d)
  {
    hide Good;
    ValidSizes(kend, s);
    assert t.spaces[d] == s.spaces[d];
    forall a: nat | UserAddr(s, d, a)
      ensures UserByte(t, d, a) == UserByte(s, d, a)
    {
      FrameOwner(kend, s, d, a / PAGESIZE);
    }
  }

  lemma StackKept(s: State, t: State, e: nat, top: nat, args: seq<seq<byte>>, sp: nat)
    requires AreArgs(args) && StackBuilt(s, e, top, args, sp) && SameUserMemory(s, t, e)
    ensures StackBuilt(t, e, top, args, sp)
  {
    hide UserAddr, UserByte, SpAfter, Need, Shows, SameUserMemory, WordThere, UserWord;
    forall i | 0 <= i < |args|
      ensures ArgShown(t, e, top, args, i)
    {
      assert ArgShown(s, e, top, args, i);
      ShowsSame(s, t, e, SpAfter(top, args, i + 1), ArgBytes(args[i]));
    }
    WordSame(s, t, e, sp);
    WordSame(s, t, e, sp + 4);
    WordSame(s, t, e, sp + 8);
    forall i | 0 <= i < MAXARG
      ensures WordThere(t, e, sp + HEAD + 4 * i) && UserWord(t, e, sp + HEAD + 4 * i) == Vector(top, args)[i]
    {
      WordSame(s, t, e, sp + HEAD + 4 * i);
    }
  }

  lemma WordSame(s: State, t: State, e: nat, a: nat)
    requires WordThere(s, e, a) && SameUserMemory(s, t, e)
    ensures WordThere(t, e, a) && UserWord(t, e, a) == UserWord(s, e, a)
  {
    hide UserAddr, UserByte;
  }

  lemma ShowsSame(s: State, t: State, e: nat, a: nat, data: seq<byte>)
    requires Shows(s, e, a, data) && SameUserMemory(s, t, e)
    ensures Shows(t, e, a, data)
  {
    forall j | 0 <= j < |data|
      ensures ShowsByte(t, e, a, data, j)
    {
      ShowsAt(s, e, a, data, j);
      assert UserAddr(s, e, a + j) <==> UserAddr(t, e, a + j);
    }
  }

  lemma ImageKept(s: State, t: State, e: nat, f: seq<byte>, limit: int)
    requires HasHeader(f) && ImageBelow(s, e, f, limit) && SameUserMemory(s, t, e)
    ensures ImageBelow(t, e, f, limit)
  {
    hide UserAddr, UserByte, ImageByte;
  }

  // ---- the outcome ---------------------------------------------------------------------------

  /** The entry point, at its place in the header. */
  function EntryPoint(f: seq<byte>): word
    requires HasHeader(f)
  {
    U32(f, 24)
  }

  /** The process as execv leaves it. */
  function Reborn(p: Proc, f: seq<byte>, pgdir: word, sp: word, size: word): Proc
    requires HasHeader(f)
  {
    p.(pgdir := pgdir, size := size, tf := p.tf.(esp := sp, eip := EntryPoint(f)))
  }

  /** Nobody's pages have changed but those of the old address space d, which are free but for its kernel tables;
      the new one, e, is made of pages that were free. */
  ghost predicate Replaced(s0: State, s: State, d: nat, e: nat) {
    && |s0.mem| == |s.mem| == NP && |s0.owner| == |s.owner| == NP
    && forall p {:trigger s.owner[p]} {:trigger s.mem[p]} :: 0 <= p < NP ==>
         match s0.owner[p]
         case Free(_) => s.owner[p].Free? || s.owner[p] == Dir(e) || TableOf(s.owner[p], e) || FrameOf(s.owner[p], e)
         case Dir(c) => if c == d then s.owner[p].Free? else s.owner[p] == s0.owner[p] && s.mem[p] == s0.mem[p]
         case Frm(c, _) => if c == d then s.owner[p].Free? else s.owner[p] == s0.owner[p] && s.mem[p] == s0.mem[p]
         case Tab(c, j) => if c != d then s.owner[p] == s0.owner[p] && s.mem[p] == s0.mem[p]
                           else if j < USLOT then s.owner[p].Retired? else s.owner[p].Free?
         case _ => s.owner[p] == s0.owner[p] && s.mem[p] == s0.mem[p]
  }

  lemma ReplacedBoth(s0: State, t: State, s: State, d: nat, e: nat)
    requires OnlyInto(e, s0, t) && Dismantled(d, t, s) && d != e
    ensures Replaced(s0, s, d, e)
  {
  }

  /** The running process runs program f with these arguments: its memory from KERNEND up is the image, a guard
      page and the argument block; the loaded directory is its own; the old address space is gone. */
  ghost predicate Installed(k0: KState, k: KState, s0: State, s: State, rodata: nat, f: seq<byte>,
      args: seq<seq<byte>>, sp: word) {
    && HasHeader(f) && AreArgs(args) && k0.procp < |k0.proc| && StackTop(f) * PAGESIZE < USEREND
    && var p, top := k0.proc[k0.procp], StackTop(f) * PAGESIZE;
       var e, d := k.cr3 / PAGESIZE, p.pgdir / PAGESIZE;
    && k == k0.(proc := k0.proc[k0.procp := Reborn(p, f, k.cr3, sp, top - KERNEND)], cr3 := k.cr3)
    && k.cr3 % PAGESIZE == 0 && e !in s0.spaces && e in s.spaces && d !in s.spaces
    && s.spaces == s0.spaces[e := s.spaces[e]] - {d}
    && Replaced(s0, s, d, e)
    && KernelHalf(s.spaces[e], rodata) && UserRegion(s.spaces[e], StackTop(f)) && GuardedFlags(s.spaces[e], StackTop(f))
    && StackBuilt(s, e, top, args, sp) && ImageBelow(s, e, f, sp)
  }

  lemma InstalledFrom(kend: nat, rodata: nat, k0: KState, k: KState, s0: State, t: State, s: State, f: seq<byte>,
                      args: seq<seq<byte>>, sp: word)
    requires HasHeader(f) && AreArgs(args) && k0.procp < |k0.proc| && StackTop(f) * PAGESIZE < USEREND
    requires var p, e := k0.proc[k0.procp], k.cr3 / PAGESIZE;
             && p.pgdir / PAGESIZE in s0.spaces && k.cr3 % PAGESIZE == 0
             && k == k0.(proc := k0.proc[k0.procp := Reborn(p, f, k.cr3, sp, StackTop(f) * PAGESIZE - KERNEND)],
                         cr3 := k.cr3)
             && ProgramReady(s0, t, e, rodata, f, StackTop(f), args, sp) && Dismantled(p.pgdir / PAGESIZE, t, s)
    requires Good(kend, t)
    ensures Installed(k0, k, s0, s, rodata, f, args, sp)
  {
    hide Good, KernelHalf, UserTabs, ForkCost, StackBuilt, ImageBelow, SameUserMemory, OnlyInto, Dismantled, Replaced,
         GuardedFlags, U32;
    var e, d := k.cr3 / PAGESIZE, k0.proc[k0.procp].pgdir / PAGESIZE;
    DismantleApart(kend, t, s, d, e);
    StackKept(t, s, e, StackTop(f) * PAGESIZE, args, sp);
    ImageKept(t, s, e, f, sp);
    ReplacedBoth(s0, t, s, d, e);
    SpacesAfter(t, s, d);
  }

  lemma SpacesAfter(t: State, s: State, d: nat)
    requires Dismantled(d, t, s)
    ensures s.spaces == t.spaces - {d}
  {
  }

  /** The kernel invariant survives: the process has moved to its new address space. */
  lemma SteadyExec(kend: nat, rodata: nat, k0: KState, k: KState, s0: State, t: State, s: State, f: seq<byte>,
      args: seq<seq<byte>>, sp: word)
    requires Steady(kend, rodata, k0, s0) && Awake(k0) && HasHeader(f) && AreArgs(args)
    requires StackTop(f) * PAGESIZE < USEREND
    requires k.cr3 != 0 && k.cr3 % PAGESIZE == 0
    requires k == k0.(proc := k0.proc[k0.procp := Reborn(k0.proc[k0.procp], f, k.cr3, sp,
        StackTop(f) * PAGESIZE - KERNEND)], cr3 := k.cr3)
    requires ProgramReady(s0, t, k.cr3 / PAGESIZE, rodata, f, StackTop(f), args, sp)
    requires Dismantled(k0.proc[k0.procp].pgdir / PAGESIZE, t, s)
    requires Good(kend, s)
    ensures Steady(kend, rodata, k, s) && Awake(k)
  {
    hide Good, MemInv, NewSpace, FilesCounted, StackBuilt, ImageBelow, Dismantled, GuardedFlags, U32;
    var p, q := k0.proc[k0.procp], k.proc[k.procp];
    assert SlotSane(p) && SlotSane(q);
    RegionPages(f);
    MemInvExec(k0.proc, s0, t, s, rodata, k.procp, q);
    SameFiles(k0, k);
  }

  lemma RegionPages(f: seq<byte>)
    requires HasHeader(f)
    ensures UPAGE + CeilPage(StackTop(f) * PAGESIZE - KERNEND) == StackTop(f)
  {
    PagesExactly(StackTop(f) - UPAGE);
  }

  lemma PagesExactly(n: nat)
    ensures CeilPage(n * PAGESIZE) == n
  {
  }

  lemma SameFiles(k0: KState, k: KState)
    requires FilesCounted(k0.proc, k0.file, k0.forks) && k.file == k0.file && k.forks == k0.forks
    requires |k.proc| == |k0.proc|
    requires forall i :: 0 <= i < |k.proc| ==> k.proc[i].ofile == k0.proc[i].ofile
    ensures FilesCounted(k.proc, k.file, k.forks)
  {
    forall f | 0 <= f < NFILE
      ensures Refs(k.proc, f) == Refs(k0.proc, f)
    {
      RefsSame(k0.proc, k.proc, f);
    }
  }

  lemma RunningSpace(kend: nat, rodata: nat, k: KState, s: State)
    requires Steady(kend, rodata, k, s) && Awake(k)
    ensures var p := k.proc[k.procp]; p.pgdir != 0 && p.pgdir % PAGESIZE == 0 && p.pgdir / PAGESIZE in s.spaces
    ensures |k.proc| == NPROC && 0 < k.procp && |s.mem| == NP && |s.owner| == NP && Good(kend, s)
  {
    hide Good, FilesCounted, SpaceComplete;
    ValidSizes(kend, s);
    assert SlotSane(k.proc[k.procp]) && SlotMem(s, rodata, k.procp, k.proc[k.procp]);
  }

  lemma SteadyLeft(kend: nat, rodata: nat, k: KState, s: State, t: State)
    requires Steady(kend, rodata, k, s) && LeftBehind(s, t) && Good(kend, t)
    ensures Steady(kend, rodata, k, t)
  {
    hide Good, FilesCounted, MemInv, LeftBehind;
    MemInvLeftBehind(k.proc, s, t, rodata);
  }

  /** execv of file f (None: no such file) with the given arguments. It succeeds exactly when the file is an
      executable and there are enough pages; if it fails, the caller goes on as if it had not been called. */
  method Execv(k: Kernel, f: Option<seq<byte>>, args: seq<seq<byte>>) returns (r: int)
    requires k.Valid() && Awake(k.KView())
    requires f.Some? ==> FileFits(f.value) && UserSegments(f.value) && ArgsFit(f.value, args, |k.m.free|)
    modifies k.proc, k`cr3, k.m.mem, k.m`coremap, k.m`free, k.m`owner, k.m`spaces
    ensures k.Valid() && Awake(k.KView())
    ensures r == if f.Some? && Executable(f.value) && |old(k.m.free)| >= ExecCost(f.value) then 0 else -1
    ensures r == -1 ==> k.KView() == old(k.KView()) && LeftBehind(old(k.m.View()), k.m.View())
    ensures r == -1 ==> |k.m.free| == if f.Some? then AfterExec(f.value, |old(k.m.free)|) else |old(k.m.free)|
    ensures r == 0 ==> exists sp :: Installed(old(k.KView()), k.KView(), old(k.m.View()), k.m.View(), k.m.rodata,
        f.value, args, sp)
  {
    hide Good, Steady, LeftBehind, ProgramReady, Executable, ExecCost, AfterExec, Installed, Dismantled, U32, Fits;
    ghost var k0, s0, kend, rodata := k.KView(), k.m.View(), k.m.kend, k.m.rodata;
    RunningSpace(kend, rodata, k0, s0);
    NothingLeftBehind(s0);
    if f == None {
      return -1;
    }
    var pgdir, top, sp := BuildProgram(k.m, f.value, args);
    ghost var t := k.m.View();
    if pgdir == 0 {
      SteadyLeft(kend, rodata, k0, s0, t);
      return -1;
    }
    ProgramFacts(s0, t, pgdir / PAGESIZE, rodata, f.value, args, sp);
    OldSpaceStays(kend, rodata, k0, s0, t, pgdir / PAGESIZE);
    var oldpgdir := k.proc[k.procp].pgdir;
    k.proc[k.procp] := k.proc[k.procp].(pgdir := pgdir);
    k.cr3 := pgdir; // switchuvm: the old directory is not loaded any more when its pages go
    FreeVm(k.m, oldpgdir);
    k.proc[k.procp] := k.proc[k.procp].(size := top - KERNEND);
    k.proc[k.procp] := k.proc[k.procp].(tf := k.proc[k.procp].tf.(esp := sp));
    k.proc[k.procp] := k.proc[k.procp].(tf := k.proc[k.procp].tf.(eip := EntryPoint(f.value)));
    assert k.proc[..] == k0.proc[k.procp := Reborn(k0.proc[k.procp], f.value, pgdir, sp, top - KERNEND)];
    SteadyExec(kend, rodata, k0, k.KView(), s0, t, k.m.View(), f.value, args, sp);
    InstalledFrom(kend, rodata, k0, k.KView(), s0, t, k.m.View(), f.value, args, sp);
    r := 0;
  }

  lemma ProgramFacts(s0: State, t: State, e: nat, rodata: nat, f: seq<byte>, args: seq<seq<byte>>, sp: nat)
    requires Executable(f) && AreArgs(args) && ProgramReady(s0, t, e, rodata, f, StackTop(f), args, sp)
    ensures HasHeader(f) && AreArgs(args) && KERNEND <= StackTop(f) * PAGESIZE < USEREND
    ensures t.spaces == s0.spaces[e := t.spaces[e]] && e !in s0.spaces
  {
  }

  /** The caller's own directory is still there. */
  lemma OldSpaceStays(kend: nat, rodata: nat, k: KState, s0: State, t: State, e: nat)
    requires Steady(kend, rodata, k, s0) && Awake(k) && e in t.spaces && t.spaces == s0.spaces[e := t.spaces[e]]
    requires e !in s0.spaces
    ensures var d := k.proc[k.procp].pgdir / PAGESIZE; d in t.spaces && d != e && k.proc[k.procp].pgdir % PAGESIZE == 0
    ensures e * PAGESIZE != k.proc[k.procp].pgdir
  {
    hide Good;
    RunningSpace(kend, rodata, k, s0);
  }
}
