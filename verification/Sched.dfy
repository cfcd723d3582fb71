/** The decisions of kernel/proc.c as functions on the process table: which process runs next, who wakes up. */
module Sched {
  import opened ProcTable

  /** The scan in sched from loop index i on: where the index meets a process in the wanted state, the process
      is noted and the cursor, which the scan itself is based on, is overwritten with the index. */
  function ScanFrom(proc: seq<Proc>, want: Stat, cursor: nat, i: nat, found: Option<nat>): (r: (Option<nat>, nat))
    requires |proc| == NPROC && cursor < NPROC && i <= NPROC
    requires (found.Some? ==> found.value < NPROC && proc[found.value].stat == want)
    ensures r.1 < NPROC && (r.0.Some? ==> r.0.value < NPROC && proc[r.0.value].stat == want)
    ensures found.Some? ==> r.0.Some?
    ensures r.0 == None ==> r.1 == cursor
    decreases NPROC - i
  {
    if i == NPROC then (found, cursor)
    else
      var slot := (cursor + i) % NPROC;
      if proc[slot].stat == want then ScanFrom(proc, want, i, i + 1, Some(slot))
      else ScanFrom(proc, want, cursor, i + 1, found)
  }

  /** If the scan from index i has found nothing, then nothing it would have met at a later index t was there. */
  lemma {:induction false} ScanMisses(proc: seq<Proc>, want: Stat, cursor: nat, i: nat, t: nat)
    requires |proc| == NPROC && cursor < NPROC && i <= t < NPROC && ScanFrom(proc, want, cursor, i, None).0 == None
    ensures proc[(cursor + t) % NPROC].stat != want
    decreases NPROC - i
  {
    if i < t {
      ScanMisses(proc, want, cursor, i + 1, t);
    }
  }

  /** Every slot is met at some index. */
  lemma SlotMet(cursor: nat, j: nat) returns (t: nat)
    requires cursor < NPROC && j < NPROC
    ensures t < NPROC && (cursor + t) % NPROC == j
  {
    t := if cursor <= j then j - cursor else j + NPROC - cursor;
  }

  /** Although the scan moves its own starting point, it ends with a process in the wanted state exactly when
      there is one, from any cursor. */
  lemma ScanComplete(proc: seq<Proc>, want: Stat, cursor: nat)
    requires |proc| == NPROC && cursor < NPROC
    ensures ScanFrom(proc, want, cursor, 0, None).0.Some? <==> exists j :: 0 <= j < NPROC && proc[j].stat == want
  {
    hide ScanFrom;
    if ScanFrom(proc, want, cursor, 0, None).0 == None {
      forall j | 0 <= j < NPROC
        ensures proc[j].stat != want
      {
        var t := SlotMet(cursor, j);
        ScanMisses(proc, want, cursor, 0, t);
      }
    }
  }

  // ---- the choice, said by the sequence of cursors -------------------------------------------

  /** Where index i of the scan looks when the cursor is c. */
  function SlotMetAt(c: nat, i: nat): nat {
    (c + i) % NPROC
  }

  predicate Meets(proc: seq<Proc>, want: Stat, c: nat, i: nat)
    requires |proc| == NPROC
  {
    proc[SlotMetAt(c, i)].stat == want
  }

  /** The cursors of one scan: at every index that meets a process in the wanted state the cursor becomes that index. */
  ghost predicate Cursors(proc: seq<Proc>, want: Stat, c: seq<nat>)
    requires |proc| == NPROC
  {
    |c| == NPROC + 1 && c[0] < NPROC
    && forall i :: 0 <= i < NPROC ==> c[i + 1] == if Meets(proc, want, c[i], i) then i else c[i]
  }

  /** The last index from n on that meets a process in the wanted state, if any. */
  ghost predicate LastHit(proc: seq<Proc>, want: Stat, c: seq<nat>, n: nat, t: Option<nat>)
    requires |proc| == NPROC && |c| == NPROC + 1
  {
    && (t.Some? ==> n <= t.value < NPROC && Meets(proc, want, c[t.value], t.value))
    && forall i :: n <= i < NPROC && (t.Some? ==> t.value < i) ==> !Meets(proc, want, c[i], i)
  }

  /** There is such a sequence from every cursor, and every cursor in it is in range. */
  lemma CursorsExist(proc: seq<Proc>, want: Stat, cursor: nat) returns (c: seq<nat>)
    requires |proc| == NPROC && cursor < NPROC
    ensures Cursors(proc, want, c) && c[0] == cursor && forall i :: 0 <= i <= NPROC ==> c[i] < NPROC
  {
    c := [cursor];
    for i := 0 to NPROC
      invariant |c| == i + 1 && c[0] == cursor && forall j :: 0 <= j <= i ==> c[j] < NPROC
      invariant forall j :: 0 <= j < i ==> c[j + 1] == if Meets(proc, want, c[j], j) then j else c[j]
    {
      c := c + [if Meets(proc, want, c[i], i) then i else c[i]];
    }
  }

  lemma CursorNext(proc: seq<Proc>, want: Stat, c: seq<nat>, n: nat)
    requires |proc| == NPROC && Cursors(proc, want, c) && n < NPROC
    ensures |c| == NPROC + 1 && c[n + 1] == if Meets(proc, want, c[n], n) then n else c[n]
  {
  }

  lemma LastHitNext(proc: seq<Proc>, want: Stat, c: seq<nat>, n: nat, t: Option<nat>)
    requires |proc| == NPROC && |c| == NPROC + 1 && n < NPROC && LastHit(proc, want, c, n, t)
    ensures t == None ==> !Meets(proc, want, c[n], n)
    ensures t == Some(n) ==> Meets(proc, want, c[n], n)
    ensures LastHit(proc, want, c, n + 1, if t == Some(n) then None else t)
  {
  }

  /** The scan finds the slot of the last hit and leaves the last cursor. */
  lemma {:induction false} ScanIsLastHit(proc: seq<Proc>, want: Stat, c: seq<nat>, n: nat, found: Option<nat>,
                                         t: Option<nat>)
    requires |proc| == NPROC && Cursors(proc, want, c) && n < |c| == NPROC + 1 && c[n] < NPROC
    requires LastHit(proc, want, c, n, t)
    requires found.Some? ==> found.value < NPROC && proc[found.value].stat == want
    ensures t.Some? ==> n <= t.value < NPROC
    ensures ScanFrom(proc, want, c[n], n, found)
            == if t.Some? then (Some(SlotMetAt(c[t.value], t.value)), c[NPROC]) else (found, c[NPROC])
    ensures c[NPROC] == if t.Some? then t.value else c[n]
    decreases NPROC - n
  {
    hide Cursors, LastHit;
    if n < NPROC {
      CursorNext(proc, want, c, n);
      LastHitNext(proc, want, c, n, t);
      var next := if Meets(proc, want, c[n], n) then Some(SlotMetAt(c[n], n)) else found;
      ScanIsLastHit(proc, want, c, n + 1, next, if t == Some(n) then None else t);
    } else {
      NoneLeft(proc, want, c, t);
    }
  }

  lemma NoneLeft(proc: seq<Proc>, want: Stat, c: seq<nat>, t: Option<nat>)
    requires |proc| == NPROC && |c| == NPROC + 1 && LastHit(proc, want, c, NPROC, t)
    ensures t == None
  {
  }

  /** The outcome of sched: the caller goes on, another process runs, or there is no process to run. */
  datatype Outcome = Stays | Switches | NoProc

  function SwitchTo(k: KState, slot: nat, cursor: nat): KState
    requires slot < |k.proc|
  {
    k.(procp := slot, sched := cursor, cr3 := k.proc[slot].pgdir)
  }

  function SchedStep(k: KState): (KState, Outcome)
    requires |k.proc| == NPROC && k.procp < NPROC && k.sched < NPROC
  {
    var (next, cursor) := ScanFrom(k.proc, RUN, k.sched, 0, None);
    if next.Some? then
      if next.value == k.procp then (k.(sched := cursor), Stays) else (SwitchTo(k, next.value, cursor), Switches)
    else if k.proc[k.procp].stat != ZOMB then (k, Stays)
    else
      var (sleeper, cursor) := ScanFrom(k.proc, SLEEP, k.sched, 0, None);
      if sleeper.Some? then (SwitchTo(k, sleeper.value, cursor), Switches) else (k, NoProc)
  }

  /** Whatever sched does, the running process afterwards is not a zombie unless the kernel is stuck; a zombie
      never gets to go on, so the panic behind sched in sys_exit is not reached; and the cursor stays in range. */
  lemma SchedSafe(k: KState)
    requires ProcsSane(k.proc) && k.procp < NPROC && k.sched < NPROC
    requires k.cr3 == k.proc[k.procp].pgdir
    ensures var (t, outcome) := SchedStep(k);
            && t.procp < NPROC && t.sched < NPROC && t.cr3 == t.proc[t.procp].pgdir
            && t == k.(procp := t.procp, sched := t.sched, cr3 := t.cr3)
            && (outcome == Stays ==> t.procp == k.procp && k.proc[k.procp].stat != ZOMB)
            && (outcome == Switches ==> t.procp != k.procp && t.procp != 0 && t.cr3 != 0 && t.proc[t.procp].kstack != 0)
            && (outcome == Switches ==> t.proc[t.procp].stat == RUN
                                        || (t.proc[t.procp].stat == SLEEP && k.proc[k.procp].stat == ZOMB
                                            && forall j :: 0 <= j < NPROC ==> k.proc[j].stat != RUN))
            && (outcome == NoProc <==> k.proc[k.procp].stat == ZOMB
                                       && forall j :: 0 <= j < NPROC ==>
                                            k.proc[j].stat != RUN && k.proc[j].stat != SLEEP)
  {
    hide ScanFrom;
    ScanComplete(k.proc, RUN, k.sched);
    ScanComplete(k.proc, SLEEP, k.sched);
  }

  /** What sched does, by the cursors c of the scan for a process that can run, with its last hit t, and, if the
      caller is a zombie and there is no hit, the cursors e of the scan for one that sleeps, with its last hit u:
      the process at the last hit runs, and the caller stays exactly if that is itself, or if there is none and it
      is no zombie. */
  lemma SchedExact(k: KState, c: seq<nat>, t: Option<nat>, e: seq<nat>, u: Option<nat>)
    requires |k.proc| == NPROC && k.procp < NPROC && k.sched < NPROC
    requires Cursors(k.proc, RUN, c) && c[0] == k.sched && LastHit(k.proc, RUN, c, 0, t)
    requires Cursors(k.proc, SLEEP, e) && e[0] == k.sched && LastHit(k.proc, SLEEP, e, 0, u)
    ensures SchedStep(k) ==
              if t.Some? then Chosen(k, SlotMetAt(c[t.value], t.value), c[NPROC])
              else if k.proc[k.procp].stat != ZOMB then (k, Stays)
              else if u.Some? then Chosen(k, SlotMetAt(e[u.value], u.value), e[NPROC])
              else (k, NoProc)
    ensures (t.Some? ==> c[NPROC] == t.value) && (u.Some? ==> e[NPROC] == u.value)
  {
    hide ScanFrom, Cursors, LastHit;
    CursorsLength(k.proc, RUN, c);
    CursorsLength(k.proc, SLEEP, e);
    HitInWantedState(k.proc, SLEEP, e, u);
    ScanIsLastHit(k.proc, RUN, c, 0, None, t);
    ScanIsLastHit(k.proc, SLEEP, e, 0, None, u);
  }

  lemma CursorsLength(proc: seq<Proc>, want: Stat, c: seq<nat>)
    requires |proc| == NPROC && Cursors(proc, want, c)
    ensures |c| == NPROC + 1 && c[0] < NPROC
  {
  }

  lemma HitInWantedState(proc: seq<Proc>, want: Stat, c: seq<nat>, t: Option<nat>)
    requires |proc| == NPROC && |c| == NPROC + 1 && LastHit(proc, want, c, 0, t)
    ensures t.Some? ==> t.value < NPROC && proc[SlotMetAt(c[t.value], t.value)].stat == want
  {
  }

  /** Every scan has a last hit, or none. */
  lemma {:induction false} HasLastHit(proc: seq<Proc>, want: Stat, c: seq<nat>, n: nat) returns (t: Option<nat>)
    requires |proc| == NPROC && |c| == NPROC + 1 && n <= NPROC
    ensures LastHit(proc, want, c, n, t)
    decreases NPROC - n
  {
    if n == NPROC {
      t := None;
    } else {
      t := HasLastHit(proc, want, c, n + 1);
      if t == None && Meets(proc, want, c[n], n) {
        t := Some(n);
      }
    }
  }

  /** The process in a slot runs, and the cursor is where the scan left it. */
  function Chosen(k: KState, slot: nat, cursor: nat): (KState, Outcome)
    requires slot < |k.proc|
  {
    if slot == k.procp then (k.(sched := cursor), Stays)
    else (k.(procp := slot, sched := cursor, cr3 := k.proc[slot].pgdir), Switches)
  }

  /** The choice can get stuck: if a scan that picks the caller ends on the cursor it began with, nothing changes. */
  lemma StuckChoice(k: KState, c: seq<nat>, t: nat)
    requires |k.proc| == NPROC && k.procp < NPROC && k.sched < NPROC
    requires Cursors(k.proc, RUN, c) && c[0] == k.sched && LastHit(k.proc, RUN, c, 0, Some(t))
    ensures c[NPROC] == t
    ensures SchedStep(k) == (k, Stays) <==> SlotMetAt(c[t], t) == k.procp && t == k.sched
  {
    hide ScanFrom;
    var e := CursorsExist(k.proc, SLEEP, k.sched);
    var u := HasLastHit(k.proc, SLEEP, e, 0);
    SchedExact(k, c, Some(t), e, u);
  }

  /** An input for which it does: with slots 1 and 5 able to run and the cursor at 61, slot 1 stays, and slot 5 never
      gets to run however often sched is called. */
  lemma SlotFiveStarves(k: KState)
    requires |k.proc| == NPROC && k.procp == 1 && k.sched == 61
    requires forall j :: 0 <= j < NPROC ==> (k.proc[j].stat == RUN <==> j == 1 || j == 5)
    ensures SchedStep(k) == (k, Stays)
  {
    hide ScanFrom;
    var c := seq(NPROC + 1, i => if 5 <= i <= 61 then 4 else 61);
    StuckChoice(k, c, 61);
  }

  /** A caller that cannot run gives way as soon as anybody can. */
  lemma GivesWay(k: KState)
    requires |k.proc| == NPROC && k.procp < NPROC && k.sched < NPROC
    requires exists j :: 0 <= j < NPROC && k.proc[j].stat == RUN
    ensures var (t, outcome) := SchedStep(k);
            && t.procp < NPROC && k.proc[t.procp].stat == RUN
            && (k.proc[k.procp].stat != RUN ==> outcome == Switches && t.procp != k.procp)
  {
    hide ScanFrom;
    ScanComplete(k.proc, RUN, k.sched);
  }

  // ---- wakeup --------------------------------------------------------------------------------

  /** wakeup on a channel. */
  function Woken(proc: seq<Proc>, chan: Chan): seq<Proc> {
    seq(|proc|, i requires 0 <= i < |proc| =>
      if proc[i].wchan == chan then proc[i].(stat := RUN, wchan := NoChan) else proc[i])
  }

  /** wakeup only ever changes sleeping processes: unused slots and zombies stay what they are. */
  lemma WakeupSafe(proc: seq<Proc>, chan: Chan)
    requires ProcsSane(proc) && chan != NoChan
    ensures ProcsSane(Woken(proc, chan))
    ensures forall i :: 0 <= i < NPROC ==>
              if proc[i].stat == SLEEP && proc[i].wchan == chan then
                Woken(proc, chan)[i] == proc[i].(stat := RUN, wchan := NoChan)
              else Woken(proc, chan)[i] == proc[i]
  {
    assert Woken(proc, chan)[0] == proc[0];
    forall i | 0 < i < NPROC
      ensures SlotSane(Woken(proc, chan)[i])
    {
      assert SlotSane(proc[i]);
    }
  }
}
