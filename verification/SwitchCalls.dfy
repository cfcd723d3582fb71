/** kernel/proc.c: sched, sleep and wakeup, and kernel/syscall/exit.c. */
module SwitchCalls {
  import opened Paging
  import opened ProcTable
  import opened KernelMem
  import opened Sched
  import opened Files

  /** The scanning loop of sched, which moves user.sched as it goes. */
  method Scan(k: Kernel, want: Stat) returns (newproc: Option<nat>)
    requires k.proc.Length == NPROC && k.sched < NPROC
    modifies k`sched
    ensures (newproc, k.sched) == ScanFrom(k.proc[..], want, old(k.sched), 0, None)
    ensures k.sched < NPROC && (newproc.Some? ==> newproc.value < NPROC && k.proc[newproc.value].stat == want)
  {
    hide ScanFrom;
    newproc := None;
    for i := 0 to NPROC
      invariant k.sched < NPROC && (newproc.Some? ==> newproc.value < NPROC && k.proc[newproc.value].stat == want)
      invariant ScanFrom(k.proc[..], want, old(k.sched), 0, None) == ScanFrom(k.proc[..], want, k.sched, i, newproc)
    {
      var slot := (k.sched + i) % NPROC;
      ScanStep(k.proc[..], want, k.sched, i, newproc);
      if k.proc[slot].stat == want {
        newproc := Some(slot);
        k.sched := i;
      }
    }
    ScanEnd(k.proc[..], want, k.sched, newproc);
  }

  lemma ScanStep(proc: seq<Proc>, want: Stat, cursor: nat, i: nat, found: Option<nat>)
    requires |proc| == NPROC && cursor < NPROC && i < NPROC
    requires found.Some? ==> found.value < NPROC && proc[found.value].stat == want
    ensures var slot := (cursor + i) % NPROC;
            ScanFrom(proc, want, cursor, i, found)
            == if proc[slot].stat == want then ScanFrom(proc, want, i, i + 1, Some(slot))
                else ScanFrom(proc, want, cursor, i + 1, found)
  {
  }

  lemma ScanEnd(proc: seq<Proc>, want: Stat, cursor: nat, found: Option<nat>)
    requires |proc| == NPROC && cursor < NPROC
    requires (found.Some? ==> found.value < NPROC && proc[found.value].stat == want)
    ensures ScanFrom(proc, want, cursor, NPROC, found) == (found, cursor)
  {
  }

  /** Give up the processor. In the source the caller's stack is left here when the outcome is Switches, and
      the kernel panics when it is NoProc. */
  method SchedCall(k: Kernel) returns (outcome: Outcome)
    requires k.proc.Length == NPROC && k.procp < NPROC && k.sched < NPROC
    modifies k`sched, k`procp, k`cr3
    ensures (k.KView(), outcome) == SchedStep(old(k.KView()))
  {
    hide ScanFrom;
    var newproc := Scan(k, RUN);
    if newproc == Some(k.procp) {
      return Stays;
    }
    if newproc == None {
      if k.proc[k.procp].stat != ZOMB {
        return Stays;
      }
      newproc := Scan(k, SLEEP);
      if newproc == None {
        return NoProc; // panic("no proc.")
      }
    }
    k.procp := newproc.value;
    k.cr3 := k.proc[newproc.value].pgdir; // switchuvm
    outcome := Switches;
  }

  /** A context switch keeps the invariant: the process it picks is no zombie, and its directory is loaded. */
  lemma SchedKeeps(kend: nat, rodata: nat, k: KState, s: State)
    requires Steady(kend, rodata, k, s)
    ensures |k.proc| == NPROC && k.procp < NPROC && k.sched < NPROC
    ensures var (t, outcome) := SchedStep(k);
            && (outcome != NoProc ==> KernelOk(kend, rodata, t, s))
            && (k.proc[k.procp].stat == ZOMB ==> outcome != Stays)
            && (k.proc[k.procp].stat != ZOMB ==> outcome != NoProc)
            && (outcome == Switches ==> t.procp != k.procp)
            && t == k.(procp := t.procp, sched := t.sched, cr3 := t.cr3)
  {
    hide Good, MemInv, FilesCounted, SchedStep;
    SchedSafe(k);
    assert SlotSane(k.proc[k.procp]);
    var (t, outcome) := SchedStep(k);
    assert t.proc == k.proc && t.file == k.file && t.forks == k.forks;
  }

  /** sched as a timer interrupt or the sleep loop calls it. */
  method Tick(k: Kernel) returns (outcome: Outcome)
    requires k.Valid()
    modifies k`sched, k`procp, k`cr3
    ensures k.Valid() && outcome != NoProc && (k.KView(), outcome) == SchedStep(old(k.KView()))
  {
    hide Steady, SchedStep, Good;
    SchedKeeps(k.m.kend, k.m.rodata, k.KView(), k.m.View());
    outcome := SchedCall(k);
  }

  method Wakeup(k: Kernel, chan: Chan)
    requires k.proc.Length == NPROC
    modifies k.proc
    ensures k.proc[..] == Woken(old(k.proc[..]), chan)
  {
    for i := 0 to NPROC
      invariant k.proc.Length == NPROC
      invariant forall j :: 0 <= j < NPROC ==>
                k.proc[j] == if j < i then Woken(old(k.proc[..]), chan)[j] else old(k.proc[..])[j]
    {
      if k.proc[i].wchan == chan {
        k.proc[i] := k.proc[i].(stat := RUN, wchan := NoChan);
      }
    }
  }

  /** A change of the wait state of some processes concerns neither memory nor descriptors. */
  lemma WaitStateStep(kend: nat, rodata: nat, k: KState, s: State, proc: seq<Proc>)
    requires Steady(kend, rodata, k, s) && ProcsSane(proc) && forall i :: 0 <= i < NPROC ==>
              SameHoldings(k.proc[i], proc[i])
    requires proc[k.procp].stat != UNUSED
    ensures Steady(kend, rodata, k.(proc := proc), s)
  {
    hide Good;
    MemInvSame(k.proc, proc, s, rodata);
    forall f | 0 <= f < NFILE
      ensures Refs(proc, f) == Refs(k.proc, f)
    {
      RefsSame(k.proc, proc, f);
    }
    hide MemInv;
  }

  /** The running process changes state. */
  lemma OwnStateStep(kend: nat, rodata: nat, k: KState, s: State, stat: Stat, chan: Chan)
    requires Steady(kend, rodata, k, s) && Awake(k)
    requires (stat == SLEEP && chan != NoChan) || (stat == ZOMB && chan == NoChan)
    ensures var proc := k.proc[k.procp := k.proc[k.procp].(stat := stat, wchan := chan)];
            ProcsSane(proc) && Steady(kend, rodata, k.(proc := proc), s)
  {
    hide Good, MemInv, FilesCounted;
    var proc := k.proc[k.procp := k.proc[k.procp].(stat := stat, wchan := chan)];
    assert SlotSane(k.proc[k.procp]) && SlotSane(proc[k.procp]);
    WaitStateStep(kend, rodata, k, s, proc);
  }

  /** wakeup keeps the invariant. */
  lemma WakeupStep(kend: nat, rodata: nat, k: KState, s: State, chan: Chan)
    requires Steady(kend, rodata, k, s) && chan != NoChan
    ensures Steady(kend, rodata, k.(proc := Woken(k.proc, chan)), s)
    ensures k.procp < |k.proc| == NPROC && k.proc[k.procp].stat != SLEEP ==>
              Woken(k.proc, chan)[k.procp] == k.proc[k.procp]
    ensures k.procp < |k.proc| && k.proc[k.procp].stat == SLEEP ==>
              Woken(k.proc, chan)[k.procp].stat == SLEEP || Woken(k.proc, chan)[k.procp].stat == RUN
  {
    hide Good, MemInv, FilesCounted;
    WakeupSafe(k.proc, chan);
    WaitStateStep(kend, rodata, k, s, Woken(k.proc, chan));
  }

  /** What a process holds: memory and descriptors. */
  predicate SameHoldings(p: Proc, q: Proc) {
    q.pgdir == p.pgdir && q.kstack == p.kstack && q.size == p.size && q.ofile == p.ofile
  }

  lemma {:induction false} RefsSame(proc: seq<Proc>, proc': seq<Proc>, f: nat)
    requires |proc| == |proc'| && forall i :: 0 <= i < |proc| ==> proc'[i].ofile == proc[i].ofile
    ensures Refs(proc', f) == Refs(proc, f)
  {
    if proc != [] {
      RefsSame(proc[..|proc| - 1], proc'[..|proc| - 1], f);
    }
  }

  /** wakeup from an interrupt or a release. */
  method WakeupCall(k: Kernel, chan: Chan)
    requires k.Valid() && chan != NoChan
    modifies k.proc
    ensures k.Valid() && k.proc[..] == Woken(old(k.proc[..]), chan)
  {
    hide Steady, Good, Woken;
    TableSize(k.m.kend, k.m.rodata, k.KView(), k.m.View());
    WakeupStep(k.m.kend, k.m.rodata, k.KView(), k.m.View(), chan);
    Wakeup(k, chan);
  }

  lemma TableSize(kend: nat, rodata: nat, k: KState, s: State)
    requires Steady(kend, rodata, k, s)
    ensures |k.proc| == NPROC && 0 < k.procp < NPROC && k.sched < NPROC && |k.file| == NFILE
    ensures k.proc[k.procp].stat == RUN ==> k.proc[k.procp].wchan == NoChan && |k.proc[k.procp].ofile| == NOFILE
  {
  }

  /** The running process goes to sleep on a channel; the first sched of the sleep loop runs. When it is run
      again it stays in the loop, calling Tick, until its channel is cleared. */
  method Sleep(k: Kernel, chan: Chan) returns (outcome: Outcome)
    requires k.Valid() && Awake(k.KView()) && chan != NoChan
    modifies k.proc, k`sched, k`procp, k`cr3
    ensures k.Valid() && outcome != NoProc
    ensures k.proc[..] == old(k.proc[..])[old(k.procp) := old(k.proc[..])[old(k.procp)].(wchan := chan, stat := SLEEP)]
    ensures (k.KView(), outcome) == SchedStep(old(k.KView()).(proc := k.proc[..]))
  {
    hide Steady, SchedStep, Good;
    TableSize(k.m.kend, k.m.rodata, k.KView(), k.m.View());
    OwnStateStep(k.m.kend, k.m.rodata, k.KView(), k.m.View(), SLEEP, chan);
    k.proc[k.procp] := k.proc[k.procp].(wchan := chan);
    k.proc[k.procp] := k.proc[k.procp].(stat := SLEEP);
    assert k.proc[..] == old(k.proc[..])[k.procp := old(k.proc[..])[k.procp].(stat := SLEEP, wchan := chan)];
    SchedKeeps(k.m.kend, k.m.rodata, k.KView(), k.m.View());
    outcome := SchedCall(k);
  }

  /** What exit makes of the process table: the caller a zombie, its parent awake. */
  function Exited(proc: seq<Proc>, i: nat): seq<Proc>
    requires i < |proc|
  {
    var zombies := proc[i := proc[i].(stat := ZOMB)];
    if proc[i].pproc.Some? then Woken(zombies, ProcChan(proc[i].pproc.value)) else zombies
  }

  /** The running process becomes a zombie, its parent is woken, and another process runs; it never runs again.
      NoProc is the panic when nobody is left. */
  method Exit(k: Kernel) returns (outcome: Outcome)
    requires k.Valid() && Awake(k.KView())
    modifies k.proc, k`sched, k`procp, k`cr3
    ensures outcome != Stays // else panic("zombie exit")
    ensures outcome == Switches ==> k.Valid() && k.procp != old(k.procp)
    ensures k.proc[..] == Exited(old(k.proc[..]), old(k.procp))
    ensures k.proc.Length == NPROC && old(k.procp) < NPROC && old(k.sched) < NPROC
    ensures (k.KView(), outcome) == SchedStep(old(k.KView()).(proc := k.proc[..]))
  {
    hide Steady, SchedStep, Good, Woken;
    TableSize(k.m.kend, k.m.rodata, k.KView(), k.m.View());
    OwnStateStep(k.m.kend, k.m.rodata, k.KView(), k.m.View(), ZOMB, NoChan);
    k.proc[k.procp] := k.proc[k.procp].(stat := ZOMB);
    assert k.proc[..] == old(k.proc[..])[k.procp := old(k.proc[..])[k.procp].(stat := ZOMB, wchan := NoChan)];
    if k.proc[k.procp].pproc.Some? {
      WakeupStep(k.m.kend, k.m.rodata, k.KView(), k.m.View(), ProcChan(k.proc[k.procp].pproc.value));
      Wakeup(k, ProcChan(k.proc[k.procp].pproc.value));
    }
    SchedKeeps(k.m.kend, k.m.rodata, k.KView(), k.m.View());
    outcome := SchedCall(k);
  }
}
