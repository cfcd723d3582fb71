/** The chains of free inode and block numbers that mkfs leaves on the disk. */
module FreeChain {
  import opened Disk

  /** The numbers met by someone who reads the words of block b from word k on until a zero, going on in the
      block that the last word of a block names. */
  function Walk(disk: seq<Sector>, b: nat, k: nat, fuel: nat): seq<nat>
    requires k < NENTRY
    decreases fuel
  {
    if fuel == 0 || b >= |disk| || GetWord(disk[b], k) == 0 then []
    else if k == NENTRY - 1 then [GetWord(disk[b], k) as nat] + Walk(disk, GetWord(disk[b], k), 0, fuel - 1)
    else [GetWord(disk[b], k) as nat] + Walk(disk, b, k + 1, fuel - 1)
  }

  /** All numbers from lo up to hi, once each, in order. */
  function Range(lo: nat, hi: nat): seq<nat>
    requires lo <= hi
  {
    seq(hi - lo, i requires 0 <= i < hi - lo => lo + i)
  }

  /** The block that holds the number head + idx; it is word idx % 128 of that block. */
  function BlockOf(head: nat, idx: nat): nat {
    if idx < NENTRY then head else head + idx / NENTRY * NENTRY - 1
  }

  /** The first n numbers of the chain are in place, and the words for the others, and the one behind them, are zero. */
  ghost predicate Chained(disk: seq<Sector>, head: nat, end: nat, n: nat)
    requires |disk| == NSECTOR && head < end <= NSECTOR
  {
    forall idx {:trigger BlockOf(head, idx)} :: 0 <= idx <= end - head && BlockOf(head, idx) < end ==>
      GetWord(disk[BlockOf(head, idx)], idx % NENTRY) == if idx < n then head + idx else 0
  }

  lemma BlockRange(head: nat, end: nat, idx: nat)
    requires head < end && idx <= end - head
    ensures head <= BlockOf(head, idx) < end
  {
  }

  /** Different numbers are in different words. */
  lemma WordsDiffer(head: nat, i: nat, j: nat)
    requires i != j && i % NENTRY == j % NENTRY
    ensures BlockOf(head, i) != BlockOf(head, j)
  {
    var qi, qj := i / NENTRY, j / NENTRY;
    assert i == NENTRY * qi + i % NENTRY && j == NENTRY * qj + j % NENTRY;
  }

  /** After the last word of a block comes the first word of the block just named. */
  lemma NextWord(head: nat, idx: nat)
    ensures idx % NENTRY == NENTRY - 1 ==> BlockOf(head, idx + 1) == head + idx && (idx + 1) % NENTRY == 0
    ensures idx % NENTRY != NENTRY - 1 ==>
        BlockOf(head, idx + 1) == BlockOf(head, idx) && (idx + 1) % NENTRY == idx % NENTRY + 1
  {
    var q, r := idx / NENTRY, idx % NENTRY;
    assert idx == NENTRY * q + r;
    if r == NENTRY - 1 {
      Carry(q);
    } else {
      NoCarry(q, r + 1);
    }
  }

  lemma Carry(q: nat)
    ensures (NENTRY * q + NENTRY) / NENTRY == q + 1 && (NENTRY * q + NENTRY) % NENTRY == 0
  {
  }

  lemma NoCarry(q: nat, r: nat)
    requires r < NENTRY
    ensures (NENTRY * q + r) / NENTRY == q && (NENTRY * q + r) % NENTRY == r
  {
  }

  /** The chain enumerates head..end, each number once and in order. */
  lemma {:induction false} ChainEnumerates(disk: seq<Sector>, head: nat, end: nat, idx: nat, fuel: nat)
    requires |disk| == NSECTOR && 0 < head < end <= NSECTOR && Chained(disk, head, end, end - head)
    requires idx <= end - head && fuel >= end - head - idx
    ensures Walk(disk, BlockOf(head, idx), idx % NENTRY, fuel) == Range(head + idx, end)
    decreases end - head - idx
  {
    hide BlockOf;
    BlockRange(head, end, idx);
    if idx < end - head {
      ChainEnumerates(disk, head, end, idx + 1, fuel - 1);
      NextWord(head, idx);
      assert Range(head + idx, end) == [head + idx] + Range(head + idx + 1, end);
    }
  }

  lemma ChainedStart(disk: seq<Sector>, head: nat, end: nat)
    requires |disk| == NSECTOR && head < end <= NSECTOR && forall s :: head <= s < end ==> disk[s] == ZeroSector()
    ensures Chained(disk, head, end, 0)
  {
    forall idx {:trigger BlockOf(head, idx)} | 0 <= idx <= end - head && BlockOf(head, idx) < end
      ensures GetWord(disk[BlockOf(head, idx)], idx % NENTRY) == 0
    {
      BlockRange(head, end, idx);
      ZeroWord(idx % NENTRY);
    }
  }

  lemma ChainedNext(disk: seq<Sector>, head: nat, end: nat, n: nat)
    requires |disk| == NSECTOR && head < end <= NSECTOR && Chained(disk, head, end, n) && n < end - head
    ensures var b := BlockOf(head, n);
            head <= b < end && Chained(disk[b := PutWord(disk[b], n % NENTRY, head + n)], head, end, n + 1)
  {
    hide BlockOf;
    BlockRange(head, end, n);
    var b := BlockOf(head, n);
    var disk' := disk[b := PutWord(disk[b], n % NENTRY, head + n)];
    forall idx {:trigger BlockOf(head, idx)} | 0 <= idx <= end - head && BlockOf(head, idx) < end
      ensures GetWord(disk'[BlockOf(head, idx)], idx % NENTRY) == if idx < n + 1 then head + idx else 0
    {
      if BlockOf(head, idx) == b {
        PutWordAt(disk[b], n % NENTRY, head + n, idx % NENTRY);
        if idx != n && idx % NENTRY == n % NENTRY {
          WordsDiffer(head, idx, n);
        }
      }
    }
  }

  /** The loop that writes a chain, as mkfs has it twice. */
  method WriteChain(bin: array<Sector>, head: nat, end: nat)
    requires bin.Length == NSECTOR && 0 < head < end <= NSECTOR
    requires forall s :: head <= s < end ==> bin[s] == ZeroSector()
    modifies bin
    ensures Chained(bin[..], head, end, end - head)
    ensures forall s :: 0 <= s < NSECTOR && !(head <= s < end) ==> bin[s] == old(bin[s])
  {
    hide BlockOf, PutWord, Chained, ZeroSector;
    ChainedStart(bin[..], head, end);
    var cnt, block := 0, head;
    FirstWord(head);
    for i := head to end
      invariant cnt == (i - head) % NENTRY && block == BlockOf(head, i - head)
      invariant Chained(bin[..], head, end, i - head)
      invariant forall s :: 0 <= s < NSECTOR && !(head <= s < end) ==> bin[s] == old(bin[s])
    {
      ghost var disk := bin[..];
      ChainedNext(disk, head, end, i - head);
      NextWord(head, i - head);
      bin[block] := PutWord(bin[block], cnt, i);
      assert bin[..] == disk[block := PutWord(disk[block], cnt, i)];
      if cnt == NENTRY - 1 {
        cnt := 0;
        block := i;
      } else {
        cnt := cnt + 1;
      }
    }
  }

  lemma FirstWord(head: nat)
    ensures BlockOf(head, 0) == head
  {
  }
}
