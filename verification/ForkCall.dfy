/** kernel/syscall/fork.c on the whole machine. */
module ForkCall {
  import opened Memory
  import opened Paging
  import opened Mapping
  import opened Unmapping
  import opened KernelMap
  import opened Forking
  import opened Losses
  import opened Vm
  import opened ProcTable
  import opened KernelMem
  import opened Files
  import opened SwitchCalls
  import opened ProcCalls

  // ---- fork ----------------------------------------------------------------------------------

  /** The file table after the first n descriptors of a process have been duplicated. */
  ghost predicate Duplicated(file: seq<File>, file': seq<File>, ofile: seq<Option<nat>>, n: nat)
    requires n <= |ofile|
  {
    && CountsOnly(file, file')
    && forall f :: 0 <= f < |file| ==> file'[f].refcnt == file[f].refcnt + FdRefs(ofile[..n], f)
  }

  lemma DuplicatedNext(file: seq<File>, file': seq<File>, file'': seq<File>, ofile: seq<Option<nat>>, n: nat)
    requires n < |ofile| && Duplicated(file, file', ofile, n)
    requires if ofile[n] == None then file'' == file'
             else ofile[n].value < |file| && file'' == AddRef(file', ofile[n].value)
    ensures Duplicated(file, file'', ofile, n + 1)
  {
    assert ofile[..n + 1][..n] == ofile[..n];
  }

  /** The child shares the parent's open files. Descriptors the parent does not have stay what palloc made them. */
  method DupFiles(k: Kernel, np: nat)
    requires k.procp < k.proc.Length && np < k.proc.Length && np != k.procp
    requires |k.proc[k.procp].ofile| == |k.proc[np].ofile| == NOFILE
    requires k.file.Length == NFILE && forall fd :: 0 <= fd < NOFILE && k.proc[k.procp].ofile[fd].Some? ==>
               k.proc[k.procp].ofile[fd].value < NFILE
               && k.file[k.proc[k.procp].ofile[fd].value].refcnt >= 1 // else panic("fdup")
    modifies k.proc, k.file
    ensures |k.proc[np].ofile| == NOFILE
    ensures k.proc[..] == old(k.proc[..])[np := old(k.proc[..])[np].(ofile := k.proc[np].ofile)]
    ensures forall fd :: 0 <= fd < NOFILE ==>
              k.proc[np].ofile[fd] == if k.proc[k.procp].ofile[fd].Some? then k.proc[k.procp].ofile[fd]
                  else old(k.proc[..])[np].ofile[fd]
    ensures Duplicated(old(k.file[..]), k.file[..], k.proc[k.procp].ofile, NOFILE)
  {
    ghost var ofile := k.proc[k.procp].ofile;
    for i := 0 to NOFILE
      invariant |k.proc[np].ofile| == NOFILE && k.file.Length == NFILE
      invariant k.proc[k.procp].ofile == ofile
      invariant k.proc[..] == old(k.proc[..])[np := old(k.proc[..])[np].(ofile := k.proc[np].ofile)]
      invariant forall fd :: 0 <= fd < NOFILE ==>
                  k.proc[np].ofile[fd] == if fd < i && ofile[fd].Some? then ofile[fd] else old(k.proc[..])[np].ofile[fd]
      invariant Duplicated(old(k.file[..]), k.file[..], ofile, i)
    {
      ghost var before := k.file[..];
      if k.proc[k.procp].ofile[i].Some? {
        var f := FDup(k, k.proc[k.procp].ofile[i].value);
        k.proc[np] := k.proc[np].(ofile := k.proc[np].ofile[i := Some(f)]);
      }
      DuplicatedNext(old(k.file[..]), before, k.file[..], ofile, i);
    }
  }

  /** The child of a successful fork. */
  function Child(parent: Proc, me: nat, pid: nat, pgdir: word, kstack: word): Proc {
    Proc(RUN, pid, Some(me), parent.size, NoChan, pgdir, kstack, parent.tf.(eax := 0), parent.ofile)
  }

  /** After a failed fork only the contents of one unused slot may differ. */
  ghost predicate SameLiving(proc: seq<Proc>, proc': seq<Proc>) {
    |proc'| == |proc| && forall i :: 0 <= i < |proc| ==>
      if proc[i].stat == UNUSED then proc'[i].stat == UNUSED else proc'[i] == proc[i]
  }

  /** The running process's user pages are all there, as copyuvm demands. */
  lemma ReadyToCopy(kend: nat, rodata: nat, k: KState, s: State)
    requires Steady(kend, rodata, k, s) && Awake(k)
    ensures var p := k.proc[k.procp];
            && p.pgdir % PAGESIZE == 0 && p.pgdir / PAGESIZE in s.spaces && KERNEND + p.size <= USEREND
            && UserPagesThere(s, p.pgdir / PAGESIZE, CeilPage(p.size)) && |p.ofile| == NOFILE && p.pgdir != 0
            && p.ofile[STDIN] == Some(STDIN) && p.ofile[STDOUT] == Some(STDOUT)
  {
    hide Good, FilesCounted, KernelHalf;
    var p := k.proc[k.procp];
    assert SlotSane(p) && SlotMem(s, rodata, k.procp, p);
    ValidSizes(kend, s);
    var d := p.pgdir / PAGESIZE;
    forall v | UPAGE <= v < UPAGE + CeilPage(p.size)
      ensures v in s.spaces[d].pages && s.spaces[d].pages[v].frame < NP
    {
      FrameOwner(kend, s, d, v);
    }
  }

  /** palloc's slot is an unused one, so it held nothing. */
  lemma FreshSlot(kend: nat, rodata: nat, k: KState, s: State, i: nat)
    requires Steady(kend, rodata, k, s) && i < NPROC && k.proc[i].stat == UNUSED
    ensures 0 < i && i != k.procp && SlotSane(k.proc[i]) && k.proc[i].pgdir == 0 && k.proc[i].kstack == 0
    ensures k.proc[i].ofile == NoFiles()
    ensures MemInv(k.proc, s, rodata) && FilesCounted(k.proc, k.file, k.forks) && |k.proc| == NPROC && |k.file| == NFILE
    ensures Good(kend, s)
  {
    hide Good, FilesCounted, MemInv;
    TableSize(kend, rodata, k, s);
    assert i != 0 ==> SlotSane(k.proc[i]);
  }

  /** palloc's references to the console are those of its slot's two descriptors. */
  lemma CountsAfterPAlloc(proc: seq<Proc>, file: seq<File>, forks: nat, i: nat, p: Proc)
    requires FilesCounted(proc, file, forks) && i < |proc| && proc[i].ofile == NoFiles()
    requires p.ofile == NoFiles()[STDIN := Some(STDIN)][STDOUT := Some(STDOUT)]
    ensures |file| == NFILE && FilesCounted(proc[i := p], ConsoleRefs(file), forks)
  {
    forall f | 0 <= f < NFILE
      ensures FdRefs(NoFiles(), f) == 0 && FdRefs(p.ofile, f) == if f == STDIN || f == STDOUT then 1 else 0
    {
      FdRefsNone(NoFiles(), f);
      FdRefsUpdate(NoFiles(), STDIN, Some(STDIN), f);
      FdRefsUpdate(NoFiles()[STDIN := Some(STDIN)], STDOUT, Some(STDOUT), f);
    }
    FilesStep(proc, file, forks, i, p, ConsoleRefs(file), forks);
  }

  /** What is known right after palloc. */
  lemma AfterPAlloc(kend: nat, rodata: nat, k: KState, s: State, i: nat, p: Proc)
    requires Steady(kend, rodata, k, s) && Awake(k) && i < NPROC && k.proc[i].stat == UNUSED && s.free != []
    requires p.kstack == s.free[|s.free| - 1] * PAGESIZE && p.pgdir == 0
    requires p.ofile == NoFiles()[STDIN := Some(STDIN)][STDOUT := Some(STDOUT)]
    ensures |s.mem| == NP && |s.owner| == NP && s.head / PAGESIZE < NP && 0 < s.free[|s.free| - 1] < NP
    ensures |k.file| == NFILE
    ensures Good(kend, TakeStack(s, i)) && MemInv(k.proc[i := p], TakeStack(s, i), rodata)
    ensures FilesCounted(k.proc[i := p], ConsoleRefs(k.file), k.forks)
    ensures k.procp < |k.proc|
    ensures UserPagesThere(TakeStack(s, i), k.proc[k.procp].pgdir / PAGESIZE, CeilPage(k.proc[k.procp].size))
    ensures 0 < i && i != k.procp
  {
    hide Good, FilesCounted, MemInv, SlotSane;
    ReadyToCopy(kend, rodata, k, s);
    FreshSlot(kend, rodata, k, s, i);
    ValidSizes(kend, s);
    TakeStackKeeps(kend, s, i);
    MemInvAlloc(kend, k.proc, s, rodata, i, p);
    CountsAfterPAlloc(k.proc, k.file, k.forks, i, p);
  }

  /** An unused slot may be cleared. */
  lemma SteadyUnused(kend: nat, rodata: nat, k: KState, s: State, i: nat, p: Proc, file: seq<File>, t: State)
    requires Steady(kend, rodata, k, s) && i < NPROC && k.proc[i].stat == UNUSED && p.stat == UNUSED
    requires p.pgdir == 0 && p.kstack == 0 && p.wchan == NoChan && p.ofile == NoFiles()
    requires Good(kend, t) && MemInv(k.proc[i := p], t, rodata) && FilesCounted(k.proc[i := p], file, k.forks)
    ensures Steady(kend, rodata, k.(proc := k.proc[i := p], file := file), t) && SameLiving(k.proc, k.proc[i := p])
    ensures i != k.procp
  {
    hide Good, FilesCounted, MemInv;
    FreshSlot(kend, rodata, k, s, i);
    assert SlotSane(p);
  }

  lemma MemInvUnused(proc: seq<Proc>, s: State, rodata: nat, i: nat, p: Proc)
    requires MemInv(proc, s, rodata) && i < NPROC && proc[i].pgdir == 0 && proc[i].kstack == 0 && p.pgdir == 0
    requires p.kstack == 0
    ensures MemInv(proc[i := p], s, rodata)
  {
    hide SlotsMem, DirsDistinct, Homes;
    SlotsMemStep(proc, s, s, rodata, i, p);
    DistinctStep(proc, i, p);
    HomesPositive(proc, s.spaces);
    HomesStep(proc, s.spaces, s.spaces, i, p);
  }

  lemma ClearedSlot(kend: nat, rodata: nat, k: KState, s: State, i: nat)
    requires Steady(kend, rodata, k, s) && i < NPROC && k.proc[i].stat == UNUSED
    ensures Steady(kend, rodata, k.(proc := k.proc[i := ZeroProc()]), s) && SameLiving(k.proc, k.proc[i := ZeroProc()])
    ensures i != k.procp
  {
    hide Good, FilesCounted, MemInv;
    FreshSlot(kend, rodata, k, s, i);
    var proc := k.proc[i := ZeroProc()];
    MemInvUnused(k.proc, s, rodata, i, ZeroProc());
    forall f | 0 <= f < NFILE
      ensures k.file[f].refcnt + FdRefs(k.proc[i].ofile, f) + Extra(k.forks, f)
              == k.file[f].refcnt + FdRefs(ZeroProc().ofile, f) + Extra(k.forks, f)
    {
    }
    FilesStep(k.proc, k.file, k.forks, i, ZeroProc(), k.file, k.forks);
    SteadyUnused(kend, rodata, k, s, i, ZeroProc(), k.file, s);
  }

  /** A fork that failed in copyuvm has left nothing but kernel tables. */
  lemma ForkUndone(kend: nat, rodata: nat, proc: seq<Proc>, s0: State, s2: State, s3: State, i: nat)
    requires Good(kend, s0) && MemInv(proc, s0, rodata) && i < NPROC && proc[i].kstack == 0 && s0.free != []
    requires |s0.mem| == NP && s0.free[|s0.free| - 1] < NP && s0.head / PAGESIZE < NP
    requires s0.owner[s0.free[|s0.free| - 1]].Free?
    requires LeftBehind(TakeStack(s0, i), s2) && Reaped(s2, s3, i, 0)
    ensures LeftBehind(s0, s3)
  {
    hide Good, SlotsMem, DirsDistinct, Homes;
    FirstPageFixed(kend, s0);
    HomesPositive(proc, s0.spaces);
    NoTrace(kend, s0, 0);
    TakeStackPages(s0, i);
    NoStack(proc, s0, i);
    assert s3.spaces == s0.spaces;
    UndonePages(s0, TakeStack(s0, i), s2, s3, i, s0.free[|s0.free| - 1]);
  }

  lemma TakeStackPages(s: State, i: nat)
    requires |s.mem| == NP && |s.owner| == NP && s.free != [] && s.free[|s.free| - 1] < NP && s.head / PAGESIZE < NP
    ensures var f, t := s.free[|s.free| - 1], TakeStack(s, i);
            && |t.mem| == NP && t.owner == s.owner[f := KStack(i)] && t.spaces == s.spaces
            && forall p :: 0 <= p < NP && p != f ==> t.mem[p] == s.mem[p]
  {
    var f := s.free[|s.free| - 1];
    assert s.owner[f := Held(0)][f := KStack(i)] == s.owner[f := KStack(i)];
  }

  lemma UndonePages(s0: State, s1: State, s2: State, s3: State, i: nat, f: nat)
    requires |s0.mem| == |s1.mem| == NP && |s0.owner| == NP && f < NP && s0.owner[f].Free?
    requires s1.owner == s0.owner[f := KStack(i)] && forall p :: 0 <= p < NP && p != f ==> s1.mem[p] == s0.mem[p]
    requires forall p {:trigger s0.owner[p]} :: 0 <= p < NP ==>
               s0.owner[p] != KStack(i) && s0.owner[p] != Dir(0) && !TableOf(s0.owner[p], 0) && !FrameOf(s0.owner[p], 0)
    requires LeftBehind(s1, s2) && Reaped(s2, s3, i, 0) && s3.spaces == s0.spaces
    ensures LeftBehind(s0, s3)
  {
    forall p | 0 <= p < NP
      ensures if s0.owner[p].Free? then s3.owner[p].Free? || s3.owner[p].Retired?
              else s3.owner[p] == s0.owner[p] && s3.mem[p] == s0.mem[p]
    {
      if p != f {
        assert s1.owner[p] == s0.owner[p];
      }
    }
  }

  /** A fork that succeeded: the new process is in place. */
  lemma SteadyForked(kend: nat, rodata: nat, k: KState, s0: State, t: State, i: nat, p: Proc, file: seq<File>,
                     nextpid: nat)
    requires Steady(kend, rodata, k, s0) && Awake(k) && i < NPROC && k.proc[i].stat == UNUSED && |k.file| == NFILE
    requires p == Child(k.proc[k.procp], k.procp, p.pid, p.pgdir, p.kstack) && p.pgdir != 0 && p.kstack != 0
    requires |k.proc[k.procp].ofile| == NOFILE && Duplicated(ConsoleRefs(k.file), file, k.proc[k.procp].ofile, NOFILE)
    requires Good(kend, t) && MemInv(k.proc[i := p], t, rodata)
    ensures Steady(kend, rodata, k.(proc := k.proc[i := p], file := file, nextpid := nextpid, forks := k.forks + 1), t)
    ensures i != k.procp
  {
    hide Good, MemInv;
    FreshSlot(kend, rodata, k, s0, i);
    ReadyToCopy(kend, rodata, k, s0);
    RunningSlot(kend, rodata, k, s0);
    var parent := k.proc[k.procp];
    assert parent.ofile[..NOFILE] == parent.ofile;
    forall f | 0 <= f < NFILE
      ensures FdRefs(NoFiles(), f) == 0
    {
      FdRefsNone(NoFiles(), f);
    }
    FilesStep(k.proc, k.file, k.forks, i, p, file, k.forks + 1);
    assert SlotSane(p);
    hide FilesCounted, Duplicated;
  }

  /** Slot c has been set aside for a child of the running process of k0; the new page is its stack. */
  ghost predicate SetAside(kend: nat, rodata: nat, k0: KState, k: KState, s0: State, s: State, c: nat) {
    && Steady(kend, rodata, k0, s0) && Awake(k0) && c < NPROC && |k0.proc| == NPROC && |k0.file| == NFILE
    && c != k0.procp
    && k0.proc[c].stat == UNUSED && (forall j :: 0 <= j < c ==> k0.proc[j].stat != UNUSED)
    && |s0.mem| == |s0.owner| == NP
    && s0.free != [] && 0 < s0.free[|s0.free| - 1] < NP && s0.head / PAGESIZE < NP && s == TakeStack(s0, c)
    && k == k0.(proc := k0.proc[c := SetProc(k0.nextpid, s0.free[|s0.free| - 1] * PAGESIZE)],
                file := ConsoleRefs(k0.file), nextpid := k0.nextpid + 1)
    && Good(kend, s) && MemInv(k.proc, s, rodata) && FilesCounted(k.proc, k.file, k.forks)
  }

  ghost predicate HasUnused(proc: seq<Proc>) {
    exists i :: 0 <= i < |proc| && proc[i].stat == UNUSED
  }

  /** palloc gets a slot and a stack. */
  ghost predicate PAllocWorks(k: KState, s: State) {
    HasUnused(k.proc) && s.free != []
  }

  /** What fork leaves when it fails: nothing that was in use has changed, and if palloc got a stack but the copy
      failed, the kernel tables built for it are lost. */
  ghost predicate ForkFailed(k0: KState, k: KState, s0: State, s: State) {
    && k == k0.(proc := k.proc, nextpid := k0.nextpid + if PAllocWorks(k0, s0) then 1 else 0)
    && SameLiving(k0.proc, k.proc) && LeftBehind(s0, s)
    && |s.free| == if PAllocWorks(k0, s0) then 1 + AfterFailure(|s0.free| - 1) else |s0.free|
  }

  /** palloc as fork calls it. */
  method ForkAlloc(k: Kernel) returns (np: Option<nat>)
    requires k.Valid() && Awake(k.KView())
    modifies k.proc, k.file, k`nextpid, k.m.mem, k.m`coremap, k.m`free, k.m`owner
    ensures k.m.Valid()
    ensures np == None ==>
              && Steady(k.m.kend, k.m.rodata, k.KView(), k.m.View()) && !PAllocWorks(old(k.KView()), old(k.m.View()))
              && ForkFailed(old(k.KView()), k.KView(), old(k.m.View()), k.m.View())
    ensures np.Some? ==>
              SetAside(k.m.kend, k.m.rodata, old(k.KView()), k.KView(), old(k.m.View()), k.m.View(), np.value)
  {
    hide Good, FilesCounted, MemInv, Steady, LeftBehind, TakeStack;
    ghost var k0, s0, kend, rodata := k.KView(), k.m.View(), k.m.kend, k.m.rodata;
    SteadyGood(kend, rodata, k0, s0);
    np := PAlloc(k);
    if np == None {
      NothingLeftBehind(s0);
      if k.proc[..] != k0.proc {
        ghost var i :| 0 <= i < NPROC && k0.proc[i].stat == UNUSED && k.proc[..] == k0.proc[i := ZeroProc()];
        ClearedSlot(kend, rodata, k0, s0, i);
      }
    } else {
      AfterPAlloc(kend, rodata, k0, s0, np.value, k.proc[np.value]);
    }
  }

  /** The error path of fork once a slot has been set aside. */
  method ForkFail(k: Kernel, c: nat, ghost k0: KState, ghost s0: State, ghost s1: State)
    requires k.m.Valid() && SetAside(k.m.kend, k.m.rodata, k0, k.KView(), s0, s1, c)
    requires LeftBehind(s1, k.m.View()) && |k.m.free| == AfterFailure(|s1.free|)
    modifies k.proc, k.file, k.m.mem, k.m`coremap, k.m`free, k.m`owner, k.m`spaces
    ensures k.m.Valid() && Steady(k.m.kend, k.m.rodata, k.KView(), k.m.View())
    ensures ForkFailed(k0, k.KView(), s0, k.m.View())
  {
    hide Good, FilesCounted, MemInv, Steady, LeftBehind, TakeStack, Reaped, SameLiving;
    ghost var kend, rodata, s2 := k.m.kend, k.m.rodata, k.m.View();
    ghost var proc1 := k.proc[..];
    MemInvLeftBehind(proc1, s1, s2, rodata);
    PFree(k, c);
    StackBack(kend, proc1, s2, k.m.View(), rodata, c);
    TakeStackView(s0, c);
    FreshSlot(kend, rodata, k0, s0, c);
    FreeTop(kend, s0);
    assert k.proc[..] == k0.proc[c := k.proc[c]];
    SteadyUnused(kend, rodata, k0, s0, c, k.proc[c], k.file[..], k.m.View());
    ForkUndone(kend, rodata, k0.proc, s0, s2, k.m.View(), c);
    SteadyPid(kend, rodata, k0.(proc := k.proc[..], file := k.file[..]), k.m.View(), k.nextpid);
    CountsDetermined(kend, rodata, k0, k.KView(), s0, k.m.View());
  }

  /** pfree of a slot that has only a stack gives one page back. */
  lemma StackBack(kend: nat, proc: seq<Proc>, s: State, t: State, rodata: nat, i: nat)
    requires MemInv(proc, s, rodata) && i < NPROC && proc[i].kstack != 0 && Reaped(s, t, i, 0)
    requires Good(kend, s) && Good(kend, t)
    ensures |t.free| == |s.free| + 1
  {
    hide Good, SpaceComplete, DirsDistinct;
    NoSpaceDismantled(s, proc, rodata);
    NoTrace(kend, s, 0);
    FreeCount(kend, s);
    FreeCount(kend, t);
    SlotOf(proc, s, rodata, i);
    assert FreePages(t) == FreePages(s) + {proc[i].kstack / PAGESIZE};
  }

  lemma FreeTop(kend: nat, s: State)
    requires Good(kend, s) && s.free != []
    ensures s.free[|s.free| - 1] < |s.owner| && s.owner[s.free[|s.free| - 1]].Free?
  {
  }

  /** The rest of fork once the address space is copied: fill in the child and let it run. */
  method ForkFinish(k: Kernel, c: nat, newdir: word, ghost k0: KState, ghost s0: State, ghost s1: State)
    returns (pid: nat)
    requires k.m.Valid() && SetAside(k.m.kend, k.m.rodata, k0, k.KView(), s0, s1, c)
    requires newdir != 0 && newdir % PAGESIZE == 0
    requires k0.procp < |k0.proc|
    requires CopyOf(s1, k.m.View(), k0.proc[k0.procp].pgdir / PAGESIZE, newdir / PAGESIZE, k.m.rodata,
        CeilPage(k0.proc[k0.procp].size))
    modifies k.proc, k.file, k`forks
    ensures k.Valid() && ForkedInto(k0, k.KView(), s0, k.m.View(), k.m.rodata, c) && k.procp == k0.procp
    ensures k.proc.Length == NPROC && pid == k.proc[c].pid
  {
    hide Good, FilesCounted, MemInv, Steady, CopyOf, Duplicated, TakeStack, CountsOnly;
    ghost var kend, rodata, s := k.m.kend, k.m.rodata, k.m.View();
    RunningSlot(kend, rodata, k0, s0);
    ReadyToCopy(kend, rodata, k0, s0);
    ConsoleKeeps(k0.file);
    assert k.proc[..] == k0.proc[c := k.proc[..][c]];
    pid := k.proc[c].pid;
    k.proc[c] := k.proc[c].(pgdir := newdir);
    k.proc[c] := k.proc[c].(size := k.proc[k.procp].size, pproc := Some(k.procp), tf := k.proc[k.procp].tf);
    k.proc[c] := k.proc[c].(tf := k.proc[c].tf.(eax := 0));
    DupFiles(k, c);
    DuplicatedOnly(k0.file, k.file[..], k.proc[k.procp].ofile);
    k.proc[c] := k.proc[c].(stat := RUN);
    k.forks := k.forks + 1;
    assert k.proc[c].ofile == k0.proc[k0.procp].ofile;
    ghost var aside := k0.proc[c := SetProc(k0.nextpid, k.proc[c].kstack)];
    MemInvForked(aside, s1, s, rodata, k0.proc[k0.procp].pgdir / PAGESIZE, c, k.proc[c]);
    assert aside[c := k.proc[c]] == k.proc[..] && k0.proc[c := k.proc[c]] == k.proc[..];
    SteadyForked(kend, rodata, k0, s0, s, c, k.proc[c], k.file[..], k.nextpid);
    assert k.KView() == k0.(proc := k.proc[..], file := k.file[..], nextpid := k.nextpid, forks := k0.forks + 1);
  }

  lemma DuplicatedOnly(file: seq<File>, file': seq<File>, ofile: seq<Option<nat>>)
    requires |file| == NFILE && |ofile| == NOFILE && Duplicated(ConsoleRefs(file), file', ofile, NOFILE)
    ensures CountsOnly(file, file')
  {
    CountsOnlyTransitive(file, ConsoleRefs(file), file');
  }

  /** Counts that equal the number of descriptors are the same again when the descriptors are. */
  lemma CountsDetermined(kend: nat, rodata: nat, k0: KState, k: KState, s0: State, s: State)
    requires Steady(kend, rodata, k0, s0) && Steady(kend, rodata, k, s) && SameLiving(k0.proc, k.proc)
    requires CountsOnly(k0.file, k.file) && k.forks == k0.forks
    ensures k.file == k0.file
  {
    hide Good, MemInv;
    forall i | 0 <= i < NPROC
      ensures k.proc[i].ofile == k0.proc[i].ofile
    {
      assert i > 0 ==> SlotSane(k0.proc[i]) && SlotSane(k.proc[i]);
    }
    forall f | 0 <= f < NFILE
      ensures k.file[f] == k0.file[f]
    {
      RefsSame(k0.proc, k.proc, f);
    }
  }

  /** How many user pages the running process has. */
  function PagesOf(k: KState): nat
    requires k.procp < |k.proc|
  {
    CeilPage(k.proc[k.procp].size)
  }

  /** fork: the child's pid, or -1 when there is no slot or there are too few pages, and then nothing that was
      in use has changed. */
  method Fork(k: Kernel) returns (r: int)
    requires k.Valid() && Awake(k.KView())
    modifies k.proc, k.file, k`nextpid, k`forks, k.m.mem, k.m`coremap, k.m`free, k.m`owner, k.m`spaces
    ensures k.Valid() && Awake(k.KView()) && k.procp == old(k.procp)
    ensures Awake(old(k.KView())) && (r != -1 <==>
        HasUnused(old(k.proc[..])) && |old(k.m.free)| >= 1 + ForkCost(PagesOf(old(k.KView()))))
    ensures r == -1 ==> ForkFailed(old(k.KView()), k.KView(), old(k.m.View()), k.m.View())
    ensures r != -1 ==> |k.m.free| == |old(k.m.free)| - (1 + ForkCost(PagesOf(old(k.KView()))))
    ensures r != -1 ==>
              exists i :: 0 <= i < k.proc.Length && r == k.proc[i].pid
                          && ForkedInto(old(k.KView()), k.KView(), old(k.m.View()), k.m.View(), k.m.rodata, i)
  {
    hide Good, FilesCounted, MemInv, Steady, CopyOf, LeftBehind, UserPagesThere, ForkCost, TakeStack;
    ghost var k0, s0 := k.KView(), k.m.View();
    TableSize(k.m.kend, k.m.rodata, k0, s0);
    CostPositive(PagesOf(k0));
    var np := ForkAlloc(k);
    if np == None {
      assert k.proc[k.procp] == k0.proc[k.procp];
      return -1;
    }
    var c := np.value;
    ghost var s1 := k.m.View();
    TakeStackView(s0, c);
    ReadyToCopy(k.m.kend, k.m.rodata, k0, s0);
    UserPagesStay(s0, s1, k0.proc[k.procp].pgdir / PAGESIZE, PagesOf(k0));
    var newdir := CopyUvm(k.m, k.proc[k.procp].pgdir, k.proc[k.procp].size);
    if newdir == 0 {
      ForkFail(k, c, k0, s0, s1);
      assert k.proc[k.procp] == k0.proc[k.procp];
      return -1;
    }
    r := ForkFinish(k, c, newdir, k0, s0, s1);
  }

  lemma UserPagesStay(s: State, t: State, d: nat, n: nat)
    requires UserPagesThere(s, d, n) && t.spaces == s.spaces && |t.mem| == NP
    ensures UserPagesThere(t, d, n)
  {
  }

  /** The successful outcome of fork, with the child in slot i. */
  ghost predicate ForkedInto(k0: KState, k: KState, s0: State, s: State, rodata: nat, i: nat) {
    && |k0.proc| == NPROC && k0.procp < NPROC && i < NPROC && k0.proc[i].stat == UNUSED && |k.proc| == NPROC
    && |s0.mem| == NP && |s0.owner| == NP && s0.free != [] && s0.free[|s0.free| - 1] < NP && s0.head / PAGESIZE < NP
    && k.proc == k0.proc[i := Child(k0.proc[k0.procp], k0.procp, k0.nextpid, k.proc[i].pgdir, k.proc[i].kstack)]
    && (forall j :: 0 <= j < i ==> k0.proc[j].stat != UNUSED) && CountsOnly(k0.file, k.file)
    && k == k0.(proc := k.proc, file := k.file, nextpid := k0.nextpid + 1, forks := k0.forks + 1)
    && CopyOf(TakeStack(s0, i), s, k0.proc[k0.procp].pgdir / PAGESIZE, k.proc[i].pgdir / PAGESIZE, rodata,
        CeilPage(k0.proc[k0.procp].size))
  }

  lemma SteadyGood(kend: nat, rodata: nat, k: KState, s: State)
    requires Steady(kend, rodata, k, s)
    ensures Good(kend, s) && |k.proc| == NPROC && |k.file| == NFILE && |s.mem| == NP && |s.owner| == NP
  {
    hide Good;
    ValidSizes(kend, s);
  }

  lemma SteadyPid(kend: nat, rodata: nat, k: KState, s: State, nextpid: nat)
    requires Steady(kend, rodata, k, s)
    ensures Steady(kend, rodata, k.(nextpid := nextpid), s)
  {
    hide Good, FilesCounted, MemInv, ProcsSane;
  }

  lemma CostPositive(n: nat)
    ensures ForkCost(n) > 0
  {
  }

  lemma ConsoleKeeps(file: seq<File>)
    requires |file| == NFILE
    ensures |ConsoleRefs(file)| == NFILE && forall f :: 0 <= f < NFILE ==> ConsoleRefs(file)[f].refcnt >= file[f].refcnt
  {
  }

  lemma TakeStackView(s: State, i: nat)
    requires |s.mem| == NP && |s.owner| == NP && s.free != [] && s.free[|s.free| - 1] < NP && s.head / PAGESIZE < NP
    ensures TakeStack(s, i).spaces == s.spaces && |TakeStack(s, i).free| == |s.free| - 1 && |TakeStack(s, i).mem| == NP
  {
  }
}
