/** kernel/proc.c palloc, pfree and collect_zombies, the second half of wait, and the system calls open and close. */
module ProcCalls {
  import opened Memory
  import opened Paging
  import opened Mapping
  import opened Unmapping
  import opened KernelMap
  import opened Allocator
  import opened Vm
  import opened ProcTable
  import opened KernelMem
  import opened Files

  // ---- palloc --------------------------------------------------------------------------------

  /** A slot as palloc leaves it: set aside, with a stack and the console open. */
  function SetProc(pid: nat, kstack: word): Proc {
    ZeroProc().(stat := SET, pid := pid, kstack := kstack,
                ofile := NoFiles()[STDIN := Some(STDIN)][STDOUT := Some(STDOUT)])
  }

  /** The console entries with one more reference each. */
  function ConsoleRefs(file: seq<File>): seq<File>
    requires |file| == NFILE
  {
    AddRef(AddRef(file, STDIN), STDOUT)
  }

  method PAlloc(k: Kernel) returns (slot: Option<nat>)
    requires k.proc.Length == NPROC && k.file.Length == NFILE && Good(k.m.kend, k.m.View())
    modifies k.proc, k.file, k`nextpid, k.m.mem, k.m`coremap, k.m`free, k.m`owner
    ensures slot == None ==>
              && (old(k.m.free) == [] || forall i :: 0 <= i < NPROC ==> old(k.proc[..])[i].stat != UNUSED)
              && k.m.View() == old(k.m.View()) && k.file[..] == old(k.file[..]) && k.nextpid == old(k.nextpid)
              && (k.proc[..] == old(k.proc[..])
                  || exists i :: 0 <= i < NPROC && old(k.proc[..])[i].stat == UNUSED
                                 && k.proc[..] == old(k.proc[..])[i := ZeroProc()])
    ensures slot.Some? ==>
              && slot.value < NPROC && old(k.proc[..])[slot.value].stat == UNUSED && old(k.m.free) != []
              && (forall i :: 0 <= i < slot.value ==> old(k.proc[..])[i].stat != UNUSED)
              && k.m.mem.Length == NP && |old(k.m.owner)| == NP && old(k.m.coremap) / PAGESIZE < NP
              && 0 < old(k.m.free)[|old(k.m.free)| - 1] < NP
              && k.m.View() == TakeStack(old(k.m.View()), slot.value)
              && k.proc[..] == old(k.proc[..])[slot.value :=
                   SetProc(old(k.nextpid), old(k.m.free)[|old(k.m.free)| - 1] * PAGESIZE)]
              && k.file[..] == ConsoleRefs(old(k.file[..])) && k.nextpid == old(k.nextpid) + 1
  {
    hide Good, AllocOk;
    ValidAlloc(k.m.kend, k.m.View());
    ValidSizes(k.m.kend, k.m.View());
    var p := NPROC;
    for i := 0 to NPROC
      invariant k.proc[..] == old(k.proc[..]) && p == NPROC && forall j :: 0 <= j < i ==> k.proc[j].stat != UNUSED
    {
      if k.proc[i].stat == UNUSED {
        p := i;
        k.proc[i] := ZeroProc();
        break;
      }
    }
    if p == NPROC {
      return None;
    }
    if k.m.free != [] {
      TakeStackKeeps(k.m.kend, k.m.View(), p);
    }
    var kstack := Kalloc(k.m, 0);
    if kstack == 0 {
      return None;
    }
    k.proc[p] := k.proc[p].(kstack := kstack);
    k.proc[p] := k.proc[p].(stat := SET, pid := k.nextpid);
    k.nextpid := k.nextpid + 1;
    k.m.mem[kstack / PAGESIZE] := ZeroPage();
    k.m.owner := k.m.owner[kstack / PAGESIZE := KStack(p)];
    var f := FGet(k, STDIN);
    k.proc[p] := k.proc[p].(ofile := k.proc[p].ofile[STDIN := Some(f)]);
    f := FGet(k, STDOUT);
    k.proc[p] := k.proc[p].(ofile := k.proc[p].ofile[STDOUT := Some(f)]);
    assert k.m.owner == TakeStack(old(k.m.View()), p).owner;
    slot := Some(p);
  }

  // ---- pfree ---------------------------------------------------------------------------------

  /** The file table after the first n descriptors of a process have been released. */
  ghost predicate Released(file: seq<File>, file': seq<File>, ofile: seq<Option<nat>>, n: nat)
    requires n <= |ofile|
  {
    && CountsOnly(file, file')
    && forall f :: 0 <= f < |file| ==> file'[f].refcnt + FdRefs(ofile[..n], f) == file[f].refcnt
  }

  lemma ReleasedNext(file: seq<File>, file': seq<File>, file'': seq<File>, ofile: seq<Option<nat>>, n: nat)
    requires n < |ofile| && Released(file, file', ofile, n)
    requires if ofile[n] == None then file'' == file'
             else
               && ofile[n].value < |file| && file'[ofile[n].value].refcnt >= 1
               && file'' == DropRef(file', ofile[n].value)
    ensures Released(file, file'', ofile, n + 1)
  {
    assert ofile[..n + 1][..n] == ofile[..n];
  }

  /** Enough references are left for the descriptors still open. */
  lemma ReleaseSafe(file: seq<File>, file': seq<File>, ofile: seq<Option<nat>>, n: nat)
    requires n < |ofile| && Released(file, file', ofile, n) && ofile[n].Some? && ofile[n].value < |file|
    requires file[ofile[n].value].refcnt >= FdRefs(ofile, ofile[n].value)
    ensures file'[ofile[n].value].refcnt >= 1
  {
    var f := ofile[n].value;
    FdRefsPrefix(ofile, n + 1, f);
    assert ofile[..n + 1][..n] == ofile[..n];
  }

  lemma {:induction false} FdRefsPrefix(ofile: seq<Option<nat>>, n: nat, f: nat)
    requires n <= |ofile|
    ensures FdRefs(ofile[..n], f) <= FdRefs(ofile, f)
  {
    if n < |ofile| {
      FdRefsPrefix(ofile[..|ofile| - 1], n, f);
      assert ofile[..|ofile| - 1][..n] == ofile[..n];
    } else {
      assert ofile[..n] == ofile;
    }
  }

  /** The slot as pfree leaves it. */
  function FreedProc(p: Proc): Proc {
    p.(stat := UNUSED, pgdir := 0, kstack := 0, ofile := NoFiles())
  }

  /** The descriptors of slot i are released one by one. */
  method ReleaseFiles(k: Kernel, i: nat)
    requires i < k.proc.Length && |k.proc[i].ofile| == NOFILE && k.file.Length == NFILE && FdsInRange(k.proc[i].ofile)
    requires forall f :: 0 <= f < NFILE ==> k.file[f].refcnt >= FdRefs(k.proc[i].ofile, f) // else panic("ffree(2)")
    modifies k.proc, k.file
    ensures k.proc[..] == old(k.proc[..])[i := old(k.proc[..])[i].(ofile := NoFiles())]
    ensures Released(old(k.file[..]), k.file[..], old(k.proc[..])[i].ofile, NOFILE)
  {
    ghost var ofile := k.proc[i].ofile;
    for fd := 0 to NOFILE
      invariant |k.proc[i].ofile| == NOFILE && k.file.Length == NFILE
      invariant k.proc[..] == old(k.proc[..])[i := old(k.proc[..])[i].(ofile := k.proc[i].ofile)]
      invariant forall j :: 0 <= j < NOFILE ==> k.proc[i].ofile[j] == if j < fd then None else ofile[j]
      invariant Released(old(k.file[..]), k.file[..], ofile, fd)
    {
      ghost var before := k.file[..];
      if k.proc[i].ofile[fd].Some? {
        ReleaseSafe(old(k.file[..]), k.file[..], ofile, fd);
        FFree(k, k.proc[i].ofile[fd].value);
        k.proc[i] := k.proc[i].(ofile := k.proc[i].ofile[fd := None]);
      }
      ReleasedNext(old(k.file[..]), before, k.file[..], ofile, fd);
    }
    assert k.proc[i].ofile == NoFiles();
  }

  /** All that slot i held is free again, but for the kernel tables of its address space d (0 for none);
      nothing else has changed. */
  ghost predicate Reaped(s0: State, s: State, i: nat, d: nat) {
    && |s0.mem| == |s.mem| == NP && |s0.owner| == |s.owner| == NP
    && s.spaces == s0.spaces - {d}
    && forall p {:trigger s.owner[p]} {:trigger s.mem[p]} :: 0 <= p < NP ==>
         match s0.owner[p]
         case Free(_) => s.owner[p].Free?
         case KStack(j) => if j == i then s.owner[p].Free? else s.owner[p] == s0.owner[p] && s.mem[p] == s0.mem[p]
         case Dir(e) => if e == d then s.owner[p].Free? else s.owner[p] == s0.owner[p] && s.mem[p] == s0.mem[p]
         case Frm(e, _) => if e == d then s.owner[p].Free? else s.owner[p] == s0.owner[p] && s.mem[p] == s0.mem[p]
         case Tab(e, j) => if e != d then s.owner[p] == s0.owner[p] && s.mem[p] == s0.mem[p]
                           else if j < USLOT then s.owner[p].Retired? else s.owner[p].Free?
         case _ => s.owner[p] == s0.owner[p] && s.mem[p] == s0.mem[p]
  }

  /** The tables and memory agree with each other, apart from the state of the scheduler. */
  ghost predicate Consistent(k: Kernel)
    reads k, k.m, k.m.mem, k.proc, k.file
  {
    k.m.Valid() && MemInv(k.proc[..], k.m.View(), k.m.rodata) && FilesCounted(k.proc[..], k.file[..], k.forks)
  }

  /** The memory half of pfree: the address space, then the stack. */
  method ReleaseMemory(k: Kernel, i: nat)
    requires k.m.Valid() && MemInv(k.proc[..], k.m.View(), k.m.rodata) && i < NPROC && k.proc[i].kstack != 0
    modifies k.proc, k.m.mem, k.m`coremap, k.m`free, k.m`owner, k.m`spaces
    ensures k.m.Valid() && MemInv(k.proc[..], k.m.View(), k.m.rodata)
    ensures k.proc[..] == old(k.proc[..])[i := old(k.proc[..])[i].(pgdir := 0, kstack := 0)]
    ensures Reaped(old(k.m.View()), k.m.View(), i, old(k.proc[..])[i].pgdir / PAGESIZE)
  {
    hide Good, AllocOk, MemInv, Dismantled, Reaped, SlotMem, NoOwner;
    ghost var proc0, s0, rodata := k.proc[..], k.m.View(), k.m.rodata;
    MemInvFacts(k.m.kend, proc0, s0, rodata, i);
    ghost var d := k.proc[i].pgdir / PAGESIZE;
    if k.proc[i].pgdir != 0 {
      FreeVm(k.m, k.proc[i].pgdir);
      k.proc[i] := k.proc[i].(pgdir := 0);
      MemInvDropSpace(proc0, s0, k.m.View(), rodata, i, k.proc[i]);
    } else {
      NoSpaceDismantled(s0, proc0, rodata);
      NoSpaceNoOwner(k.m.kend, s0, 0);
      assert k.proc[..] == k.proc[..][i := k.proc[i].(pgdir := 0)];
    }
    ghost var s1 := k.m.View();
    ValidSizes(k.m.kend, s1);
    MemInvDropStack(k.proc[..], s1, rodata, i, k.proc[i].(kstack := 0));
    DropStackKeeps(k.m.kend, s1, k.proc[i].kstack / PAGESIZE);
    ValidAlloc(k.m.kend, s1);
    ReapedBoth(proc0, s0, s1, rodata, i, d, k.proc[i].kstack / PAGESIZE);
    Kfree(k.m, k.proc[i].kstack);
    k.proc[i] := k.proc[i].(kstack := 0);
  }

  lemma MemInvFacts(kend: nat, proc: seq<Proc>, s: State, rodata: nat, i: nat)
    requires MemInv(proc, s, rodata) && i < NPROC && Good(kend, s)
    ensures |proc| == NPROC && |s.mem| == NP && |s.owner| == NP
    ensures proc[i].pgdir != 0 ==> proc[i].pgdir % PAGESIZE == 0 && proc[i].pgdir / PAGESIZE in s.spaces
  {
    hide Good;
    ValidSizes(kend, s);
    assert SlotMem(s, rodata, i, proc[i]);
  }

  /** There is no address space 0, so nothing is left of it. */
  lemma NoSpaceDismantled(s: State, proc: seq<Proc>, rodata: nat)
    requires MemInv(proc, s, rodata) && |s.mem| == NP
    ensures 0 !in s.spaces
  {
    assert forall d :: d in s.spaces ==> d > 0;
  }

  lemma ReapedBoth(proc: seq<Proc>, s0: State, s1: State, rodata: nat, i: nat, d: nat, f: nat)
    requires MemInv(proc, s0, rodata) && i < NPROC && f < NP && |s1.owner| == NP && s1.owner[f] == KStack(i)
    requires |s0.mem| == |s1.mem| == NP && proc[i].kstack == f * PAGESIZE
    requires Dismantled(d, s0, s1) || (s1 == s0 && d == 0 && 0 !in s0.spaces && NoOwner(s0, 0))
    ensures Reaped(s0, PushFree(s1, f), i, d)
  {
    hide SlotsMem, DirsDistinct, Homes;
    assert OwnersMem(proc, s0);
    assert s0.spaces - {0} == s0.spaces || 0 in s0.spaces;
  }

  /** No page belongs to address space d. */
  ghost predicate NoOwner(s: State, d: nat) {
    forall p {:trigger s.owner[p]} :: 0 <= p < |s.owner| ==>
        s.owner[p] != Dir(d) && !TableOf(s.owner[p], d) && !FrameOf(s.owner[p], d)
  }

  lemma NoSpaceNoOwner(kend: nat, s: State, d: nat)
    requires Good(kend, s) && d !in s.spaces
    ensures NoOwner(s, d)
  {
    NoTrace(kend, s, d);
  }

  /** Everything a process holds is given back and its slot is free for another. */
  method PFree(k: Kernel, i: nat)
    requires Consistent(k) && i < NPROC && |k.proc[i].ofile| == NOFILE && k.proc[i].kstack != 0
    modifies k.proc, k.file, k.m.mem, k.m`coremap, k.m`free, k.m`owner, k.m`spaces
    ensures Consistent(k) && CountsOnly(old(k.file[..]), k.file[..])
    ensures k.proc[..] == old(k.proc[..])[i := FreedProc(old(k.proc[..])[i])]
    ensures Reaped(old(k.m.View()), k.m.View(), i, old(k.proc[..])[i].pgdir / PAGESIZE)
  {
    hide Good, MemInv, Reaped, Released, CountsOnly;
    ghost var proc0, file0 := k.proc[..], k.file[..];
    ReleaseReady(k.m.kend, proc0, file0, k.forks, k.m.View(), k.m.rodata, i);
    ReleaseFiles(k, i);
    ReleasedOnly(file0, k.file[..], proc0[i].ofile, NOFILE);
    MemInvSame(proc0, k.proc[..], k.m.View(), k.m.rodata);
    ghost var proc1 := k.proc[..];
    ReleaseMemory(k, i);
    ghost var proc2 := k.proc[..];
    k.proc[i] := k.proc[i].(stat := UNUSED);
    MemInvSame(proc2, k.proc[..], k.m.View(), k.m.rodata);
    ReleasedCounts(proc0, file0, k.forks, i, k.file[..], FreedProc(proc0[i]));
    assert k.proc[..] == proc0[i := FreedProc(proc0[i])];
  }

  /** Every descriptor of a process is backed by a reference. */
  lemma ReleaseReady(kend: nat, proc: seq<Proc>, file: seq<File>, forks: nat, s: State, rodata: nat, i: nat)
    requires FilesCounted(proc, file, forks) && MemInv(proc, s, rodata) && i < NPROC
    ensures |proc| == NPROC && FdsInRange(proc[i].ofile) && forall f :: 0 <= f < NFILE ==>
        file[f].refcnt >= FdRefs(proc[i].ofile, f)
  {
    forall f | 0 <= f < NFILE
      ensures file[f].refcnt >= FdRefs(proc[i].ofile, f)
    {
      RefsAtLeast(proc, i, f);
    }
  }

  lemma ReleasedOnly(file: seq<File>, file': seq<File>, ofile: seq<Option<nat>>, n: nat)
    requires n <= |ofile| && Released(file, file', ofile, n)
    ensures CountsOnly(file, file')
  {
  }

  lemma ReleasedCounts(proc: seq<Proc>, file: seq<File>, forks: nat, i: nat, file': seq<File>, p: Proc)
    requires FilesCounted(proc, file, forks) && i < |proc| && |proc[i].ofile| == NOFILE
    requires Released(file, file', proc[i].ofile, NOFILE) && p.ofile == NoFiles()
    ensures FilesCounted(proc[i := p], file', forks)
  {
    assert proc[i].ofile[..NOFILE] == proc[i].ofile;
    forall f | 0 <= f < NFILE
      ensures FdRefs(p.ofile, f) == 0
    {
      FdRefsNone(p.ofile, f);
    }
    FilesStep(proc, file, forks, i, p, file', forks);
  }

  // ---- wait ----------------------------------------------------------------------------------

  /** Process p is a zombie child of slot `me`. */
  predicate Collectable(p: Proc, me: nat) {
    p.pproc == Some(me) && p.stat == ZOMB
  }

  /** Steady, and Consistent as far as memory and files go: what PFree keeps while zombies are collected. */
  lemma SteadyConsistent(k: Kernel)
    requires k.m.Valid() && Steady(k.m.kend, k.m.rodata, k.KView(), k.m.View())
    ensures Consistent(k) && k.proc.Length == NPROC && k.procp < NPROC
    ensures forall i :: 0 < i < NPROC && k.proc[i].stat == ZOMB ==>
              |k.proc[i].ofile| == NOFILE && k.proc[i].kstack != 0 && k.proc[i].pgdir != 0
    ensures k.proc[0].pproc == None
  {
    hide Good, MemInv, FilesCounted;
    forall i | 0 < i < NPROC
      ensures SlotSane(k.proc[i])
    {
    }
  }

  lemma SteadyAfterFree(kend: nat, rodata: nat, k: KState, s: State, file: seq<File>, t: State, i: nat)
    requires Steady(kend, rodata, k, s) && 0 < i < NPROC && k.proc[i].stat == ZOMB && i != k.procp
    requires MemInv(k.proc[i := FreedProc(k.proc[i])], t, rodata) && Good(kend, t)
    requires FilesCounted(k.proc[i := FreedProc(k.proc[i])], file, k.forks)
    ensures Steady(kend, rodata, k.(proc := k.proc[i := FreedProc(k.proc[i])], file := file), t)
  {
    hide Good, MemInv, FilesCounted;
    assert SlotSane(k.proc[i]);
    assert SlotSane(FreedProc(k.proc[i]));
  }

  /** A page with owner o is process p's, which is in slot i. */
  predicate Belongs(o: Owner, p: Proc, i: nat) {
    o == KStack(i)
    || (p.pgdir != 0
        && (o == Dir(p.pgdir / PAGESIZE) || TableOf(o, p.pgdir / PAGESIZE) || FrameOf(o, p.pgdir / PAGESIZE)))
  }

  /** Owner o is a zombie child of slot `me` among the first n slots. */
  ghost predicate ZombiePage(proc: seq<Proc>, me: nat, n: nat, o: Owner)
    requires n <= |proc|
  {
    exists i :: 0 <= i < n && Collectable(proc[i], me) && Belongs(o, proc[i], i)
  }

  ghost predicate ZombieDir(proc: seq<Proc>, me: nat, n: nat, d: nat)
    requires n <= |proc|
  {
    exists i :: 0 <= i < n && Collectable(proc[i], me) && proc[i].pgdir / PAGESIZE == d
  }

  /** All that the zombie children of slot `me` among the first n slots held is free, but for their kernel tables,
      which are left behind; free pages stay free; all other pages are untouched. */
  ghost predicate PagesOfZombiesGone(proc: seq<Proc>, me: nat, n: nat, s0: State, s: State)
    requires n <= |proc|
  {
    && |s0.mem| == |s.mem| == NP && |s0.owner| == |s.owner| == NP
    && forall p {:trigger s.owner[p]} {:trigger s.mem[p]} :: 0 <= p < NP ==>
         if ZombiePage(proc, me, n, s0.owner[p]) then
           if s0.owner[p].Tab? && s0.owner[p].slot < USLOT then s.owner[p].Retired? else s.owner[p].Free?
         else if s0.owner[p].Free? then s.owner[p].Free?
         else s.owner[p] == s0.owner[p] && s.mem[p] == s0.mem[p]
  }

  /** The address spaces of these zombies are gone, the others are untouched. */
  ghost predicate SpacesOfZombiesGone(proc: seq<Proc>, me: nat, n: nat, s0: State, s: State)
    requires n <= |proc|
  {
    && (forall d :: d in s.spaces ==> d in s0.spaces && s.spaces[d] == s0.spaces[d])
    && (forall d :: d in s0.spaces ==> (d in s.spaces <==> !ZombieDir(proc, me, n, d)))
  }

  ghost predicate ZombiesGone(proc: seq<Proc>, me: nat, n: nat, s0: State, s: State)
    requires n <= |proc|
  {
    PagesOfZombiesGone(proc, me, n, s0, s) && SpacesOfZombiesGone(proc, me, n, s0, s)
  }

  lemma ZombiesGoneNext(proc: seq<Proc>, me: nat, s0: State, s1: State, s2: State, i: nat)
    requires i < |proc| && ZombiesGone(proc, me, i, s0, s1) && Collectable(proc[i], me) && proc[i].pgdir != 0
    requires Reaped(s1, s2, i, proc[i].pgdir / PAGESIZE)
    ensures ZombiesGone(proc, me, i + 1, s0, s2)
  {
    hide ZombiePage;
    forall p | 0 <= p < NP
      ensures ZombiePage(proc, me, i + 1, s0.owner[p])
              <==> ZombiePage(proc, me, i, s0.owner[p]) || Belongs(s0.owner[p], proc[i], i)
    {
      ZombiePageNext(proc, me, i, s0.owner[p]);
    }
  }

  lemma ZombiePageNext(proc: seq<Proc>, me: nat, i: nat, o: Owner)
    requires i < |proc|
    ensures ZombiePage(proc, me, i + 1, o) <==>
              ZombiePage(proc, me, i, o) || (Collectable(proc[i], me) && Belongs(o, proc[i], i))
  {
    hide Belongs;
  }

  /** A slot that is not collected leaves all as it is. */
  lemma ZombiesGoneSkip(proc: seq<Proc>, me: nat, s0: State, s: State, i: nat)
    requires i < |proc| && ZombiesGone(proc, me, i, s0, s) && !Collectable(proc[i], me)
    ensures ZombiesGone(proc, me, i + 1, s0, s)
  {
    hide ZombiePage;
    forall p | 0 <= p < NP
      ensures ZombiePage(proc, me, i + 1, s0.owner[p]) <==> ZombiePage(proc, me, i, s0.owner[p])
    {
      ZombiePageNext(proc, me, i, s0.owner[p]);
    }
  }

  lemma CountsStay(file: seq<File>)
    ensures CountsOnly(file, file)
  {
  }

  lemma NobodyGone(kend: nat, proc: seq<Proc>, me: nat, s: State)
    requires Good(kend, s)
    ensures ZombiesGone(proc, me, 0, s, s)
  {
  }

  /** The second half of wait: every zombie child of the running process is freed, and nothing else changes. */
  method CollectZombies(k: Kernel)
    requires k.Valid() && Awake(k.KView())
    modifies k.proc, k.file, k.m.mem, k.m`coremap, k.m`free, k.m`owner, k.m`spaces
    ensures k.Valid() && Awake(k.KView()) && Collected(old(k.KView()), k.KView(), old(k.m.View()), k.m.View())
  {
    hide Good, MemInv, FilesCounted, Steady, Reaped, ZombiesGone, CountsOnly;
    ghost var proc := k.proc[..];
    CountsStay(k.file[..]);
    SteadyConsistent(k);
    NobodyGone(k.m.kend, proc, k.procp, k.m.View());
    for i := 0 to NPROC
      invariant k.m.Valid() && Steady(k.m.kend, k.m.rodata, k.KView(), k.m.View()) && k.proc.Length == NPROC
      invariant forall j :: 0 <= j < NPROC ==>
                  k.proc[j] == if j < i && Collectable(proc[j], k.procp) then FreedProc(proc[j]) else proc[j]
      invariant ZombiesGone(proc, k.procp, i, old(k.m.View()), k.m.View()) && CountsOnly(old(k.file[..]), k.file[..])
    {
      SteadyConsistent(k);
      if k.proc[i].pproc == Some(k.procp) && k.proc[i].stat == ZOMB {
        ghost var k0, s0, file0 := k.KView(), k.m.View(), k.file[..];
        PFree(k, i);
        CountsOnlyTransitive(old(k.file[..]), file0, k.file[..]);
        ZombiesGoneNext(proc, k.procp, old(k.m.View()), s0, k.m.View(), i);
        SteadyAfterFree(k.m.kend, k.m.rodata, k0, s0, k.file[..], k.m.View(), i);
        assert k.KView() == k0.(proc := k0.proc[i := FreedProc(k0.proc[i])], file := k.file[..]);
      } else {
        ZombiesGoneSkip(proc, k.procp, old(k.m.View()), k.m.View(), i);
      }
    }
  }

  /** Exactly the zombie children of the running process are freed, with all they held. */
  ghost predicate Collected(k0: KState, k: KState, s0: State, s: State) {
    && |k0.proc| == |k.proc| == NPROC && k == k0.(proc := k.proc, file := k.file) && CountsOnly(k0.file, k.file)
    && (forall i :: 0 <= i < NPROC ==>
          k.proc[i] == if Collectable(k0.proc[i], k0.procp) then FreedProc(k0.proc[i]) else k0.proc[i])
    && ZombiesGone(k0.proc, k0.procp, NPROC, s0, s)
  }

  // ---- open and close ------------------------------------------------------------------------

  /** One descriptor of the running process changes, and the counts with it. */
  lemma SteadyFd(kend: nat, rodata: nat, k: KState, s: State, fd: nat, x: Option<nat>, file: seq<File>)
    requires Steady(kend, rodata, k, s) && Awake(k) && STDOUT < fd < NOFILE && |k.proc[k.procp].ofile| == NOFILE
    requires FilesCounted(k.proc[k.procp := k.proc[k.procp].(ofile := k.proc[k.procp].ofile[fd := x])], file, k.forks)
    ensures var proc := k.proc[k.procp := k.proc[k.procp].(ofile := k.proc[k.procp].ofile[fd := x])];
            Steady(kend, rodata, k.(proc := proc, file := file), s)
  {
    hide Good, FilesCounted, MemInv;
    var proc := k.proc[k.procp := k.proc[k.procp].(ofile := k.proc[k.procp].ofile[fd := x])];
    assert SlotSane(k.proc[k.procp]) && SlotSane(proc[k.procp]);
    MemInvSame(k.proc, proc, s, rodata);
  }

  /** Descriptor fd of slot i changed. */
  function WithFd(proc: seq<Proc>, i: nat, fd: nat, x: Option<nat>): seq<Proc>
    requires i < |proc| && fd < |proc[i].ofile|
  {
    proc[i := proc[i].(ofile := proc[i].ofile[fd := x])]
  }

  /** The lowest free descriptor fd of the running process is open on entry f, the first that was free, at offset 0. */
  ghost predicate Opened(k0: KState, k: KState, ip: Option<nat>, fd: nat, f: nat) {
    && k0.procp < |k0.proc| && fd < |k0.proc[k0.procp].ofile| && f < |k0.file|
    && k0.file[f].refcnt == 0 && (forall g :: 0 <= g < f ==> k0.file[g].refcnt != 0)
    && k0.proc[k0.procp].ofile[fd] == None && (forall d :: 0 <= d < fd ==> k0.proc[k0.procp].ofile[d] != None)
    && k == k0.(file := k0.file[f := File(1, ip, 0)], proc := WithFd(k0.proc, k0.procp, fd, Some(f)))
  }

  /** Open the inode that namei found (None: no such file). */
  method Open(k: Kernel, ip: Option<nat>) returns (r: int)
    requires k.Valid() && Awake(k.KView())
    modifies k.proc, k.file
    ensures k.Valid() && Awake(k.KView())
    ensures r == -1 || 0 <= r < NOFILE
    ensures r == -1 <==>
              || ip == None || (forall f :: 0 <= f < NFILE ==> old(k.file[..])[f].refcnt != 0)
              || (forall fd :: 0 <= fd < NOFILE ==> old(k.proc[..])[k.procp].ofile[fd] != None)
    ensures r == -1 ==> k.KView() == old(k.KView())
    ensures r >= 0 ==> exists f :: 0 <= f < NFILE && Opened(old(k.KView()), k.KView(), ip, r, f)
  {
    hide Good, MemInv, Steady;
    if ip == None {
      return -1;
    }
    RunningSlot(k.m.kend, k.m.rodata, k.KView(), k.m.View());
    ghost var k0, file0 := k.KView(), k.file[..];
    var f := FAlloc(k);
    if f == None {
      return -1;
    }
    assert forall g :: 0 <= g < f.value ==> file0[g] == k.file[g];
    r := FdAlloc(k, f.value);
    if r < 0 {
      FFree(k, f.value);
      assert k.file[..] == file0;
      return -1;
    }
    k.file[f.value] := k.file[f.value].(inode := ip);
    k.file[f.value] := k.file[f.value].(offset := 0);
    assert k.file[..] == file0[f.value := File(1, ip, 0)];
    OpenSteady(k.m.kend, k.m.rodata, k0, k.m.View(), r, f.value, k.file[..]);
    assert Opened(k0, k.KView(), ip, r, f.value);
  }

  /** The running process's slot; its console descriptors are open, so a free descriptor is another one. */
  lemma RunningSlot(kend: nat, rodata: nat, k: KState, s: State)
    requires Steady(kend, rodata, k, s) && Awake(k)
    ensures |k.proc| == NPROC && k.procp < NPROC && |k.file| == NFILE && |k.proc[k.procp].ofile| == NOFILE
    ensures k.proc[k.procp].ofile[STDIN].Some? && k.proc[k.procp].ofile[STDOUT].Some?
    ensures forall fd :: 0 <= fd < NOFILE && k.proc[k.procp].ofile[fd].Some? ==>
              k.proc[k.procp].ofile[fd].value < NFILE && k.file[k.proc[k.procp].ofile[fd].value].refcnt >= 1
  {
    hide Good, MemInv;
    assert SlotSane(k.proc[k.procp]);
    forall fd | 0 <= fd < NOFILE && k.proc[k.procp].ofile[fd].Some?
      ensures k.proc[k.procp].ofile[fd].value < NFILE && k.file[k.proc[k.procp].ofile[fd].value].refcnt >= 1
    {
      OpenMeansCounted(k.proc, k.file, k.forks, k.procp, fd);
    }
  }

  lemma OpenSteady(kend: nat, rodata: nat, k: KState, s: State, fd: nat, f: nat, file: seq<File>)
    requires Steady(kend, rodata, k, s) && Awake(k) && fd < NOFILE && |k.proc[k.procp].ofile| == NOFILE
    requires k.proc[k.procp].ofile[fd] == None && f < NFILE && |file| == NFILE && |k.file| == NFILE
    requires forall g :: 0 <= g < NFILE ==> file[g].refcnt == k.file[g].refcnt + if g == f then 1 else 0
    ensures var proc := k.proc[k.procp := k.proc[k.procp].(ofile := k.proc[k.procp].ofile[fd := Some(f)])];
            Steady(kend, rodata, k.(proc := proc, file := file), s)
  {
    hide Good, MemInv;
    RunningSlot(kend, rodata, k, s);
    CountOpen(k.proc, k.file, k.forks, k.procp, fd, f, file);
    SteadyFd(kend, rodata, k, s, fd, Some(f), file);
  }

  /** Close a descriptor; the console's cannot be closed. */
  method Close(k: Kernel, fd: int) returns (r: int)
    requires k.Valid() && Awake(k.KView())
    requires 2 <= fd < NOFILE ==>
               |k.proc[k.procp].ofile| == NOFILE && k.proc[k.procp].ofile[fd].Some? // else panic("ffree(1)")
    modifies k.proc, k.file
    ensures k.Valid() && Awake(k.KView())
    ensures r == if 2 <= fd < NOFILE then 0 else -1
    ensures r == -1 ==> k.KView() == old(k.KView())
    ensures r == 0 ==>
              var p := old(k.proc[..])[k.procp];
              && k.proc[..] == old(k.proc[..])[k.procp := p.(ofile := p.ofile[fd := None])]
              && p.ofile[fd].value < k.file.Length && old(k.file[..])[p.ofile[fd].value].refcnt >= 1
              && k.file[..] == DropRef(old(k.file[..]), p.ofile[fd].value)
  {
    hide Good, MemInv, Steady;
    if fd < 2 || fd >= NOFILE {
      return -1;
    }
    RunningSlot(k.m.kend, k.m.rodata, k.KView(), k.m.View());
    CloseSteady(k.m.kend, k.m.rodata, k.KView(), k.m.View(), fd);
    FFree(k, k.proc[k.procp].ofile[fd].value);
    k.proc[k.procp] := k.proc[k.procp].(ofile := k.proc[k.procp].ofile[fd := None]);
    r := 0;
  }

  lemma CloseSteady(kend: nat, rodata: nat, k: KState, s: State, fd: nat)
    requires Steady(kend, rodata, k, s) && Awake(k) && STDOUT < fd < NOFILE && |k.proc[k.procp].ofile| == NOFILE
    requires k.proc[k.procp].ofile[fd].Some?
    ensures k.proc[k.procp].ofile[fd].value < |k.file| && k.file[k.proc[k.procp].ofile[fd].value].refcnt >= 1
    ensures var proc := k.proc[k.procp := k.proc[k.procp].(ofile := k.proc[k.procp].ofile[fd := None])];
            Steady(kend, rodata, k.(proc := proc, file := DropRef(k.file, k.proc[k.procp].ofile[fd].value)), s)
  {
    hide Good, MemInv;
    RunningSlot(kend, rodata, k, s);
    CountClose(k.proc, k.file, k.forks, k.procp, fd);
    SteadyFd(kend, rodata, k, s, fd, None, DropRef(k.file, k.proc[k.procp].ofile[fd].value));
  }
}
