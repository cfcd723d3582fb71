/** wait and exit over a run: a parent that waits is woken by its child's exit and frees the child; and a choice of
    sched that is stuck stays stuck. */
module Waiting {
  import opened Memory
  import opened Paging
  import opened KernelMap
  import opened Forking
  import Vm
  import opened ProcTable
  import opened KernelMem
  import opened Sched
  import opened Files
  import opened SwitchCalls
  import opened ProcCalls
  import opened ForkCall
  import opened ExecCall
  import opened Inodes
  import opened ReadCall
  import opened Effects
  import opened Traces
  import opened Outcomes

  /** Event e, at b, wakes those who sleep on channel chan. */
  ghost predicate Wakes(e: Event, b: Snap, chan: Chan) {
    || (e.WakeEvent? && e.chan == chan)
    || (e.ExitEvent? && Awake(b.k) && b.k.proc[b.k.procp].pproc.Some?
        && chan == ProcChan(b.k.proc[b.k.procp].pproc.value))
  }

  lemma SleeperFacts(env: Env, b: Snap, i: nat, chan: Chan)
    requires InOrder(env, b) && i < |b.k.proc| && b.k.proc[i].stat == SLEEP && b.k.proc[i].wchan == chan
    ensures Tables(b.k) && 0 < i && chan != NoChan && (Awake(b.k) ==> i != b.k.procp)
    ensures forall j :: 0 <= j < NPROC && b.k.proc[j].stat != SLEEP ==> b.k.proc[j].wchan == NoChan
  {
    hide Good, FilesCounted, MemInv, DirSane, TableOk;
    assert i > 0 ==> SlotSane(b.k.proc[i]);
    forall j | 0 <= j < NPROC && b.k.proc[j].stat != SLEEP
      ensures b.k.proc[j].wchan == NoChan
    {
      assert j > 0 ==> SlotSane(b.k.proc[j]);
    }
  }

  /** A process that sleeps is left altogether as it is by everything that does not wake its channel. */
  lemma SleeperStays(env: Env, e: Event, b: Snap, a: Snap, i: nat, chan: Chan)
    requires InOrder(env, b) && Effect(env, e, b, a) && i < |b.k.proc| && b.k.proc[i].stat == SLEEP
    requires b.k.proc[i].wchan == chan && !Wakes(e, b, chan)
    ensures i < |a.k.proc| && a.k.proc[i] == b.k.proc[i]
  {
    hide InOrder, SchedStep, CopyOf, LeftBehind, ZombiesGone, ExecMade, OpenMade, ReadMade, Stored, ForkWorks,
         TakeStack,
         PAllocWorks;
    SleeperFacts(env, b, i, chan);
    if ByProcess(e) && !Awake(b.k) {
      return;
    }
    match e {
      case TimerEvent => SchedLeaves(b.k);
      case ExitEvent =>
        SchedLeaves(b.k.(proc := Exited(b.k.proc, b.k.procp)));
      case WaitEvent => SchedLeaves(b.k.(proc := Asleep(b.k, ProcChan(b.k.procp))));
      case SleepEvent(c) => SchedLeaves(b.k.(proc := Asleep(b.k, c)));
      case StoreEvent(va, x) =>
        StoreKeepsTable(b, a, va, x);
      case ExecEvent(path, argv) =>
        var r :| ExecMade(env, b, a, path, argv, r);
        if a.k != b.k {
          var file, args := ExecutedFile(env, b, a, path, argv, r);
          RanKeepsOthers(env, b, a, file, args, r, i);
        }
      case OpenEvent(path) =>
        var r :| OpenMade(env, b, a, path, r);
        OpenKeepsSlots(env, b, a, path, r, i);
      case ReadEvent(fd, arg, size) =>
        ReadKeepsTable(env, b, a, fd, arg, size);
      case _ =>
    }
  }

  lemma StoreKeepsTable(b: Snap, a: Snap, va: word, x: byte)
    requires Stored(b, a, va, x)
    ensures a.k == b.k
  {
  }

  lemma RanKeepsOthers(env: Env, b: Snap, a: Snap, f: seq<byte>, args: seq<seq<byte>>, r: int, i: nat)
    requires Ran(env, b, a, f, args, r) && i < |b.k.proc| && i != b.k.procp
    ensures i < |a.k.proc| && a.k.proc[i] == b.k.proc[i]
  {
    hide LeftBehind, Replaced, KernelHalf;
  }

  lemma OpenKeepsSlots(env: Env, b: Snap, a: Snap, path: word, r: int, i: nat)
    requires OpenMade(env, b, a, path, r) && i < |b.k.proc| && i != b.k.procp
    ensures i < |a.k.proc| && a.k.proc[i] == b.k.proc[i]
  {
    hide CanName, NameLookup, HasString, NoEntry;
  }

  lemma ReadKeepsTable(env: Env, b: Snap, a: Snap, fd: int, arg: word, size: int)
    requires ReadMade(env, b, a, fd, arg, size)
    ensures a.k.proc == b.k.proc
  {
    hide ReadAllowed, OnDisk, ReadDone;
  }

  ghost predicate WakesAt(events: seq<Event>, trace: seq<Snap>, m: nat, chan: Chan)
    requires m < |events| && m < |trace|
  {
    Wakes(events[m], trace[m], chan)
  }

  /** A process sleeps, unchanged, until its channel is woken. */
  lemma {:induction false} SleepsUntilWoken(env: Env, events: seq<Event>, trace: seq<Snap>, i: nat, chan: Chan,
      from: nat,
                                            to: nat)
    requires IsRun(env, events, trace) && from <= to < |trace| && i < |trace[from].k.proc|
    requires trace[from].k.proc[i].stat == SLEEP && trace[from].k.proc[i].wchan == chan
    requires forall m :: from <= m < to ==> !WakesAt(events, trace, m, chan)
    ensures i < |trace[to].k.proc| && trace[to].k.proc[i] == trace[from].k.proc[i]
  {
    hide InOrder, Effect, IsRun, Proper, Wakes;
    if from < to {
      SleepsUntilWoken(env, events, trace, i, chan, from, to - 1);
      StepOf(env, events, trace, to - 1);
      assert !WakesAt(events, trace, to - 1, chan);
      SleeperStays(env, events[to - 1], trace[to - 1], trace[to], i, chan);
    }
  }

  // ---- the child's end -----------------------------------------------------------------------

  /** Slot z holds nothing, and what it held as a zombie in b is free. */
  ghost predicate Freed(b: Snap, a: Snap, z: nat) {
    && z < |b.k.proc| && z < |a.k.proc|
    && var p, q := b.k.proc[z], a.k.proc[z];
    && q.stat == UNUSED && q.pgdir == 0 && q.kstack == 0 && (forall fd :: 0 <= fd < |q.ofile| ==> q.ofile[fd] == None)
    && p.kstack / PAGESIZE < |a.s.owner| && a.s.owner[p.kstack / PAGESIZE].Free?
    && p.pgdir / PAGESIZE < |a.s.owner| && a.s.owner[p.pgdir / PAGESIZE].Free? && p.pgdir / PAGESIZE !in a.s.spaces
  }

  lemma CollectFrees(env: Env, b: Snap, a: Snap, z: nat)
    requires InOrder(env, b) && Awake(b.k) && Effect(env, CollectEvent, b, a) && 0 < z < NPROC == |b.k.proc|
    requires b.k.proc[z].stat == ZOMB && b.k.proc[z].pproc == Some(b.k.procp)
    ensures Freed(b, a, z)
  {
    hide InOrder, Good, CountsOnly, ZombiePage, ZombieDir;
    var p := b.k.proc[z];
    SlotPages(env, b, z);
    ZombiePageAt(b.k.proc, b.k.procp, z, b.s.owner[p.kstack / PAGESIZE]);
    ZombiePageAt(b.k.proc, b.k.procp, z, b.s.owner[p.pgdir / PAGESIZE]);
    ZombieDirAt(b.k.proc, b.k.procp, z);
  }

  lemma ZombieDirAt(proc: seq<Proc>, me: nat, z: nat)
    requires z < |proc| == NPROC && Collectable(proc[z], me)
    ensures ZombieDir(proc, me, NPROC, proc[z].pgdir / PAGESIZE)
  {
  }

  lemma ZombiePageAt(proc: seq<Proc>, me: nat, z: nat, o: Owner)
    requires z < |proc| == NPROC && Collectable(proc[z], me) && Belongs(o, proc[z], z)
    ensures ZombiePage(proc, me, NPROC, o)
  {
  }

  lemma SlotPages(env: Env, b: Snap, z: nat)
    requires InOrder(env, b) && 0 < z < NPROC == |b.k.proc| && b.k.proc[z].stat != UNUSED
    ensures |b.s.owner| == NP
    ensures var p := b.k.proc[z];
            && p.kstack / PAGESIZE < NP && b.s.owner[p.kstack / PAGESIZE] == KStack(z) && p.pgdir != 0
            && p.pgdir / PAGESIZE < NP && b.s.owner[p.pgdir / PAGESIZE] == Dir(p.pgdir / PAGESIZE)
            && p.pgdir / PAGESIZE in b.s.spaces
  {
    hide Good, FilesCounted, DirSane, TableOk, SpaceComplete;
    OrderFacts(env, b, z);
    assert SlotMem(b.s, env.rodata, z, b.k.proc[z]) && SlotSane(b.k.proc[z]);
    Vm.DirectoryWord(env.kend, b.s, b.k.proc[z].pgdir / PAGESIZE, 0);
  }

  /** wait is over when a child exits. If process p waits in step w, its child in slot z exits in step m, nothing woke p
      in between, and step n is the first after that in which p collects, then p slept all the time from w to m, can run
      from then on, and the child, a zombie with all its memory until n, is gone with all it held after n. */
  lemma WaitFreesChild(env: Env, events: seq<Event>, trace: seq<Snap>, p: nat, z: nat, w: nat, m: nat, n: nat)
    requires IsRun(env, events, trace) && w < m < n && n + 1 < |trace| && |trace| <= |events| + 1
    requires events[w].WaitEvent? && Awake(trace[w].k) && trace[w].k.procp == p
    requires events[m].ExitEvent? && Awake(trace[m].k) && trace[m].k.procp == z && trace[m].k.proc[z].pproc == Some(p)
    requires events[n].CollectEvent? && Awake(trace[n].k) && trace[n].k.procp == p
    requires forall j :: w < j < m ==> !WakesAt(events, trace, j, ProcChan(p))
    requires forall j :: m < j < n ==> !ParentCollects(events, trace, j, Some(p))
    ensures p < |trace[w].k.proc| && p < |trace[m].k.proc| && p < |trace[m + 1].k.proc| && z < |trace[n].k.proc|
    ensures trace[m].k.proc[p] == trace[w].k.proc[p].(stat := SLEEP, wchan := ProcChan(p))
    ensures trace[m + 1].k.proc[p] == trace[w].k.proc[p].(stat := RUN, wchan := NoChan)
    ensures trace[n].k.proc[z].stat == ZOMB && SameProcess(trace[m + 1], trace[n], z)
    ensures Freed(trace[n], trace[n + 1], z)
  {
    hide InOrder, Effect, IsRun, Proper, Scheduled, Wakes, SameUserMemory, Freed;
    StepOf(env, events, trace, w);
    SleepOutcome(env, trace[w], trace[w + 1], ProcChan(p));
    SleepsUntilWoken(env, events, trace, p, ProcChan(p), w + 1, m);
    StepOf(env, events, trace, m);
    ExitOutcome(env, trace[m], trace[m + 1]);
    LiveCaller(env, trace[m]);
    ZombieUntilCollected(env, events, trace, z, m + 1, n);
    StepOf(env, events, trace, n);
    LiveCaller(env, trace[n]);
    CollectFrees(env, trace[n], trace[n + 1], z);
  }

  lemma LiveCaller(env: Env, b: Snap)
    requires InOrder(env, b)
    ensures 0 < b.k.procp < NPROC == |b.k.proc|
  {
    hide Good, FilesCounted, MemInv, DirSane, TableOk;
  }

  // ---- no fairness ---------------------------------------------------------------------------

  /** In the state of SlotFiveStarves no number of timer ticks ever lets slot 5 run. */
  lemma {:induction false} TicksStarve(env: Env, events: seq<Event>, trace: seq<Snap>, n: nat)
    requires IsRun(env, events, trace) && n < |trace| <= |events| + 1
    requires forall i :: 0 <= i < n ==> events[i].TimerEvent?
    requires var k := trace[0].k;
             |k.proc| == NPROC && k.procp == 1 && k.sched == 61
             && forall j :: 0 <= j < NPROC ==> (k.proc[j].stat == RUN <==> j == 1 || j == 5)
    ensures trace[n] == trace[0]
  {
    hide InOrder, IsRun, Proper, SchedStep;
    if n > 0 {
      TicksStarve(env, events, trace, n - 1);
      StepOf(env, events, trace, n - 1);
      SlotFiveStarves(trace[0].k);
    }
  }
}
