/** The process table, the open-file table, and what must be true of them between system calls. */
module ProcTable {
  import opened Memory
  import opened Paging
  import opened KernelMap
  import opened Loading
  import opened Vm

  const NPROC: nat := 64
  const NOFILE: nat := 32
  const NFILE: nat := 64
  const STDIN: nat := 0
  const STDOUT: nat := 1

  datatype Option<T> = None | Some(value: T)

  datatype Stat = UNUSED | SET | RUN | SLEEP | ZOMB | STOP

  /** A wait channel: null, the address of a process table slot, or some other kernel address. */
  datatype Chan = NoChan | ProcChan(slot: nat) | OtherChan(addr: nat)

  /** The registers of a trap frame that system calls read or write. */
  datatype TrapFrame = TrapFrame(eax: word, eip: word, esp: word)

  datatype Proc = Proc(stat: Stat, pid: nat, pproc: Option<nat>, size: word, wchan: Chan, pgdir: word, kstack: word,
                       tf: TrapFrame, ofile: seq<Option<nat>>)

  /** An entry of file[]; the inode is a slot of the inode table. */
  datatype File = File(refcnt: nat, inode: Option<nat>, offset: nat)

  function NoFiles(): seq<Option<nat>> {
    seq(NOFILE, _ => None)
  }

  /** memset(p, 0, sizeof(struct proc)) */
  function ZeroProc(): Proc {
    Proc(UNUSED, 0, None, 0, NoChan, 0, 0, TrapFrame(0, 0, 0), NoFiles())
  }

  /** The globals of proc.c and file.c. */
  datatype KState = KState(proc: seq<Proc>, file: seq<File>, procp: nat, nextpid: nat, sched: nat, cr3: word,
                           forks: nat)

  // ---- the process state machine -------------------------------------------------------------

  /** Slot 0 belongs to the boot code: a zombie that nobody collects. */
  ghost predicate IsDummy(p: Proc) {
    p.stat == ZOMB && p.pproc == None && p.wchan == NoChan && p.pgdir == 0 && p.kstack == 0 && p.ofile == NoFiles()
  }

  /** A slot between system calls: a process sleeps exactly when it has a wait channel, an unused slot holds
      nothing, a live one has an address space and a kernel stack, and its first two descriptors are the console. */
  ghost predicate SlotSane(p: Proc) {
    && |p.ofile| == NOFILE
    && (p.stat == UNUSED || p.stat == RUN || p.stat == SLEEP || p.stat == ZOMB)
    && (p.wchan != NoChan <==> p.stat == SLEEP)
    && (p.stat == UNUSED ==> p.pgdir == 0 && p.kstack == 0 && p.ofile == NoFiles())
    && (p.stat != UNUSED ==>
          p.pgdir != 0 && p.kstack != 0 && p.ofile[STDIN] == Some(STDIN) && p.ofile[STDOUT] == Some(STDOUT))
  }

  ghost predicate ProcsSane(proc: seq<Proc>) {
    |proc| == NPROC && IsDummy(proc[0]) && forall i :: 0 < i < NPROC ==> SlotSane(proc[i])
  }

  // ---- the open-file table -------------------------------------------------------------------

  /** How many of these descriptors are open on entry f. */
  function FdRefs(ofile: seq<Option<nat>>, f: nat): nat {
    if ofile == [] then 0 else FdRefs(ofile[..|ofile| - 1], f) + if ofile[|ofile| - 1] == Some(f) then 1 else 0
  }

  /** How many descriptors of these processes are open on entry f. */
  function Refs(proc: seq<Proc>, f: nat): nat {
    if proc == [] then 0 else Refs(proc[..|proc| - 1], f) + FdRefs(proc[|proc| - 1].ofile, f)
  }

  /** What an entry's count is beyond the descriptors open on it: for the console entries, one from boot and one
      more for every fork, since palloc takes a reference and fork takes another. */
  function Extra(forks: nat, f: nat): nat {
    if f == STDIN || f == STDOUT then 1 + forks else 0
  }

  ghost predicate FilesCounted(proc: seq<Proc>, file: seq<File>, forks: nat) {
    && |file| == NFILE
    && (forall i, fd :: 0 <= i < |proc| && 0 <= fd < |proc[i].ofile| && proc[i].ofile[fd].Some? ==>
        proc[i].ofile[fd].value < NFILE)
    && (forall f :: 0 <= f < NFILE ==> file[f].refcnt == Extra(forks, f) + Refs(proc, f))
  }

  lemma {:induction false} FdRefsUpdate(ofile: seq<Option<nat>>, fd: nat, x: Option<nat>, f: nat)
    requires fd < |ofile|
    ensures FdRefs(ofile[fd := x], f) + (if ofile[fd] == Some(f) then 1
        else 0) == FdRefs(ofile, f) + (if x == Some(f) then 1 else 0)
  {
    var n := |ofile| - 1;
    if fd == n {
      assert ofile[fd := x][..n] == ofile[..n];
    } else {
      assert ofile[fd := x][..n] == ofile[..n][fd := x];
      FdRefsUpdate(ofile[..n], fd, x, f);
    }
  }

  lemma {:induction false} RefsUpdate(proc: seq<Proc>, i: nat, p: Proc, f: nat)
    requires i < |proc|
    ensures Refs(proc[i := p], f) + FdRefs(proc[i].ofile, f) == Refs(proc, f) + FdRefs(p.ofile, f)
  {
    var n := |proc| - 1;
    if i == n {
      assert proc[i := p][..n] == proc[..n];
    } else {
      assert proc[i := p][..n] == proc[..n][i := p];
      RefsUpdate(proc[..n], i, p, f);
    }
  }

  lemma {:induction false} FdRefsNone(ofile: seq<Option<nat>>, f: nat)
    requires forall fd :: 0 <= fd < |ofile| ==> ofile[fd] != Some(f)
    ensures FdRefs(ofile, f) == 0
  {
    if ofile != [] {
      FdRefsNone(ofile[..|ofile| - 1], f);
    }
  }

  lemma {:induction false} FdRefsSome(ofile: seq<Option<nat>>, f: nat, fd: nat)
    requires fd < |ofile| && ofile[fd] == Some(f)
    ensures FdRefs(ofile, f) >= 1
  {
    if fd < |ofile| - 1 {
      FdRefsSome(ofile[..|ofile| - 1], f, fd);
    }
  }

  lemma {:induction false} RefsAtLeast(proc: seq<Proc>, i: nat, f: nat)
    requires i < |proc|
    ensures Refs(proc, f) >= FdRefs(proc[i].ofile, f)
  {
    if i < |proc| - 1 {
      RefsAtLeast(proc[..|proc| - 1], i, f);
    }
  }

  /** A descriptor that is open on an entry keeps falloc from handing the entry out again. */
  lemma OpenMeansCounted(proc: seq<Proc>, file: seq<File>, forks: nat, i: nat, fd: nat)
    requires FilesCounted(proc, file, forks) && i < |proc| && fd < |proc[i].ofile| && proc[i].ofile[fd].Some?
    ensures file[proc[i].ofile[fd].value].refcnt >= 1
  {
    FdRefsSome(proc[i].ofile, proc[i].ofile[fd].value, fd);
    RefsAtLeast(proc, i, proc[i].ofile[fd].value);
  }

  // ---- memory --------------------------------------------------------------------------------

  /** Address space sp is complete for a process of `size` bytes: the kernel half, and exactly the user pages
      that hold [KERNEND, KERNEND + size). */
  ghost predicate SpaceComplete(sp: Space, rodata: nat, size: word) {
    KernelHalf(sp, rodata) && UserRegion(sp, UPAGE + CeilPage(size)) && KERNEND + size <= USEREND
  }

  ghost predicate SlotMem(s: State, rodata: nat, i: nat, p: Proc)
    requires |s.owner| == NP
  {
    && (p.kstack != 0 ==>
          p.kstack % PAGESIZE == 0 && p.kstack / PAGESIZE < NP && s.owner[p.kstack / PAGESIZE] == KStack(i))
    && (p.pgdir != 0 ==> p.pgdir % PAGESIZE == 0 && p.pgdir / PAGESIZE in s.spaces
                         && SpaceComplete(s.spaces[p.pgdir / PAGESIZE], rodata, p.size))
  }

  ghost predicate SlotsMem(proc: seq<Proc>, s: State, rodata: nat)
    requires |s.owner| == NP
  {
    forall i :: 0 <= i < |proc| ==> SlotMem(s, rodata, i, proc[i])
  }

  ghost predicate DirsDistinct(proc: seq<Proc>) {
    forall i, j :: 0 <= i < |proc| && 0 <= j < |proc| && i != j && proc[i].pgdir != 0 ==> proc[i].pgdir != proc[j].pgdir
  }

  /** No page is in flight, and kernel stacks belong to processes. */
  ghost predicate OwnersMem(proc: seq<Proc>, s: State) {
    forall p {:trigger s.owner[p]} :: 0 <= p < |s.owner| ==>
      && !s.owner[p].Held?
      && (s.owner[p].KStack? ==> s.owner[p].slot < |proc| && proc[s.owner[p].slot].kstack == p * PAGESIZE)
  }

  ghost predicate HasHome(proc: seq<Proc>, d: nat) {
    exists i :: 0 <= i < |proc| && proc[i].pgdir == d * PAGESIZE
  }

  ghost predicate Homes(proc: seq<Proc>, spaces: map<nat, Space>) {
    forall d :: d in spaces ==> d > 0 && HasHome(proc, d)
  }

  /** Kernel stacks and address spaces are those of the processes, each of one process; nothing is in flight. */
  ghost predicate MemInv(proc: seq<Proc>, s: State, rodata: nat) {
    && |proc| == NPROC && |s.owner| == NP
    && SlotsMem(proc, s, rodata) && DirsDistinct(proc) && OwnersMem(proc, s) && Homes(proc, s.spaces)
  }

  /** What holds between any two system calls, whatever the state of the running process. */
  ghost predicate Steady(kend: nat, rodata: nat, k: KState, s: State) {
    && ProcsSane(k.proc) && FilesCounted(k.proc, k.file, k.forks) && MemInv(k.proc, s, rodata) && Good(kend, s)
    && 0 < k.procp < NPROC && k.sched < NPROC && k.cr3 == k.proc[k.procp].pgdir && k.proc[k.procp].stat != UNUSED
  }

  /** The kernel invariant: besides, the running process is no zombie. */
  ghost predicate KernelOk(kend: nat, rodata: nat, k: KState, s: State) {
    && Steady(kend, rodata, k, s)
    && (k.proc[k.procp].stat == RUN || k.proc[k.procp].stat == SLEEP)
  }

  /** The running process is out of its sleep loop and may make system calls. */
  predicate Awake(k: KState) {
    k.procp < |k.proc| && k.proc[k.procp].stat == RUN
  }
}
