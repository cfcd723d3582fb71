/** fs/file.c and fdalloc: the open-file table, with every count tied to the descriptors open on the entry. */
module Files {
  import opened Memory
  import opened Allocator
  import opened ProcTable

  /** The file table as fsinit leaves it: the first two entries are the console's. */
  function NoFilesOpen(inode0: nat, inode1: nat): (file: seq<File>)
    ensures |file| == NFILE
  {
    seq(NFILE, f => File(0, None, 0))[STDIN := File(1, Some(inode0), 0)][STDOUT := File(1, Some(inode1), 0)]
  }

  /** The kernel's global state: memory, the process and file tables, and struct user. */
  class Kernel {
    const m: Machine
    const proc: array<Proc>
    const file: array<File>
    var procp: nat  // user.procp, as a slot
    var nextpid: nat
    var sched: nat
    var cr3: word
    ghost var forks: nat // successful forks so far

    ghost function KView(): KState
      reads this, proc, file
    {
      KState(proc[..], file[..], procp, nextpid, sched, cr3, forks)
    }

    ghost predicate Valid()
      reads this, m, m.mem, proc, file
    {
      m.Valid() && KernelOk(m.kend, m.rodata, KView(), m.View())
    }

    /** The tables as boot finds them: slot 0 is the boot code's, the first two file entries are the console's. */
    constructor (machine: Machine, inode0: nat, inode1: nat)
      ensures m == machine && fresh(proc) && fresh(file)
      ensures proc[..] == seq(NPROC, i => ZeroProc())[0 := ZeroProc().(stat := ZOMB)]
      ensures file[..] == NoFilesOpen(inode0, inode1)
      ensures procp == 0 && nextpid == 0 && sched == 0 && cr3 == 0 && forks == 0
    {
      m := machine;
      proc := new Proc[NPROC](i => if i == 0 then ZeroProc().(stat := ZOMB) else ZeroProc());
      file := new File[NFILE](f =>
        if f == STDIN then File(1, Some(inode0), 0)
        else if f == STDOUT then File(1, Some(inode1), 0)
        else File(0, None, 0));
      procp, nextpid, sched, cr3, forks := 0, 0, 0, 0, 0;
    }
  }

  function AddRef(file: seq<File>, f: nat): seq<File>
    requires f < |file|
  {
    file[f := file[f].(refcnt := file[f].refcnt + 1)]
  }

  function DropRef(file: seq<File>, f: nat): seq<File>
    requires f < |file| && file[f].refcnt >= 1
  {
    file[f := file[f].(refcnt := file[f].refcnt - 1)]
  }

  /** Only reference counts differ. */
  ghost predicate CountsOnly(file: seq<File>, file': seq<File>) {
    |file'| == |file| && forall f :: 0 <= f < |file| ==> file'[f] == file[f].(refcnt := file'[f].refcnt)
  }

  lemma CountsOnlyTransitive(a: seq<File>, b: seq<File>, c: seq<File>)
    requires CountsOnly(a, b) && CountsOnly(b, c)
    ensures CountsOnly(a, c)
  {
  }

  method FGet(k: Kernel, index: nat) returns (f: nat)
    requires index < k.file.Length
    modifies k.file
    ensures f == index && k.file[..] == AddRef(old(k.file[..]), index)
  {
    k.file[index] := k.file[index].(refcnt := k.file[index].refcnt + 1);
    f := index;
  }

  /** The first entry that nothing refers to, with one reference. */
  method FAlloc(k: Kernel) returns (f: Option<nat>)
    requires k.file.Length == NFILE
    modifies k.file
    ensures f == None ==> k.file[..] == old(k.file[..]) && forall i :: 0 <= i < NFILE ==> k.file[i].refcnt != 0
    ensures f.Some? ==>
              && f.value < NFILE && old(k.file[..])[f.value].refcnt == 0
              && k.file[..] == AddRef(old(k.file[..]), f.value)
              && forall i :: 0 <= i < f.value ==> k.file[i].refcnt != 0
  {
    for i := 0 to NFILE
      invariant k.file[..] == old(k.file[..]) && forall j :: 0 <= j < i ==> k.file[j].refcnt != 0
    {
      if k.file[i].refcnt == 0 {
        k.file[i] := k.file[i].(refcnt := 1);
        return Some(i);
      }
    }
    return None;
  }

  method FFree(k: Kernel, f: nat)
    requires f < k.file.Length && k.file[f].refcnt >= 1 // else panic("ffree(1)"), panic("ffree(2)")
    modifies k.file
    ensures k.file[..] == DropRef(old(k.file[..]), f)
  {
    k.file[f] := k.file[f].(refcnt := k.file[f].refcnt - 1);
  }

  method FDup(k: Kernel, f: nat) returns (g: nat)
    requires f < k.file.Length && k.file[f].refcnt >= 1 // else panic("fdup")
    modifies k.file
    ensures g == f && k.file[..] == AddRef(old(k.file[..]), f)
  {
    k.file[f] := k.file[f].(refcnt := k.file[f].refcnt + 1);
    g := f;
  }

  /** The lowest free descriptor of the running process. */
  method FdAlloc(k: Kernel, f: nat) returns (fd: int)
    requires k.procp < k.proc.Length && |k.proc[k.procp].ofile| == NOFILE
    modifies k.proc
    ensures -1 <= fd < NOFILE
    ensures fd < 0 ==> k.proc[..] == old(k.proc[..]) && forall j :: 0 <= j < NOFILE ==> k.proc[k.procp].ofile[j] != None
    ensures fd >= 0 ==>
              var p := old(k.proc[..])[k.procp];
              && p.ofile[fd] == None && (forall j :: 0 <= j < fd ==> p.ofile[j] != None)
              && k.proc[..] == old(k.proc[..])[k.procp := p.(ofile := p.ofile[fd := Some(f)])]
  {
    for i := 0 to NOFILE
      invariant k.proc[..] == old(k.proc[..]) && forall j :: 0 <= j < i ==> k.proc[k.procp].ofile[j] != None
    {
      if k.proc[k.procp].ofile[i] == None {
        k.proc[k.procp] := k.proc[k.procp].(ofile := k.proc[k.procp].ofile[i := Some(f)]);
        return i;
      }
    }
    return -1;
  }

  // ---- counting ------------------------------------------------------------------------------

  ghost predicate FdsInRange(ofile: seq<Option<nat>>) {
    forall fd :: 0 <= fd < |ofile| && ofile[fd].Some? ==> ofile[fd].value < NFILE
  }

  /** If the counts move with the descriptors of the one process that changes, they stay right. */
  lemma FilesStep(proc: seq<Proc>, file: seq<File>, forks: nat, i: nat, p: Proc, file': seq<File>, forks': nat)
    requires FilesCounted(proc, file, forks) && i < |proc| && |file'| == NFILE && FdsInRange(p.ofile)
    requires forall f :: 0 <= f < NFILE ==>
               file'[f].refcnt + FdRefs(proc[i].ofile, f) + Extra(forks, f)
               == file[f].refcnt + FdRefs(p.ofile, f) + Extra(forks', f)
    ensures FilesCounted(proc[i := p], file', forks')
  {
    forall f | 0 <= f < NFILE
      ensures file'[f].refcnt == Extra(forks', f) + Refs(proc[i := p], f)
    {
      RefsUpdate(proc, i, p, f);
    }
  }

  /** Opening a closed descriptor on an entry with a new reference. */
  lemma CountOpen(proc: seq<Proc>, file: seq<File>, forks: nat, i: nat, fd: nat, f: nat, file': seq<File>)
    requires FilesCounted(proc, file, forks) && i < |proc| && fd < |proc[i].ofile| && proc[i].ofile[fd] == None
    requires f < NFILE && |file'| == NFILE
    requires forall g :: 0 <= g < NFILE ==> file'[g].refcnt == file[g].refcnt + if g == f then 1 else 0
    ensures FilesCounted(proc[i := proc[i].(ofile := proc[i].ofile[fd := Some(f)])], file', forks)
  {
    var p := proc[i].(ofile := proc[i].ofile[fd := Some(f)]);
    forall g | 0 <= g < NFILE
      ensures FdRefs(p.ofile, g) == FdRefs(proc[i].ofile, g) + if g == f then 1 else 0
    {
      FdRefsUpdate(proc[i].ofile, fd, Some(f), g);
    }
    FilesStep(proc, file, forks, i, p, file', forks);
  }

  /** Closing an open descriptor. */
  lemma CountClose(proc: seq<Proc>, file: seq<File>, forks: nat, i: nat, fd: nat)
    requires FilesCounted(proc, file, forks) && i < |proc| && fd < |proc[i].ofile| && proc[i].ofile[fd].Some?
    ensures file[proc[i].ofile[fd].value].refcnt >= 1
    ensures FilesCounted(proc[i := proc[i].(ofile := proc[i].ofile[fd := None])],
                         DropRef(file, proc[i].ofile[fd].value), forks)
  {
    var f := proc[i].ofile[fd].value;
    OpenMeansCounted(proc, file, forks, i, fd);
    var p := proc[i].(ofile := proc[i].ofile[fd := None]);
    forall g | 0 <= g < NFILE
      ensures FdRefs(proc[i].ofile, g) == FdRefs(p.ofile, g) + if g == f then 1 else 0
    {
      FdRefsUpdate(proc[i].ofile, fd, None, g);
    }
    FilesStep(proc, file, forks, i, p, DropRef(file, f), forks);
  }
}
