/** fs/bio.c: the block cache, proved to behave like the disk itself. */
module BlockCache {
  import opened Counting
  import opened Memory
  import opened Disk

  const NBUF: nat := 256

  /** A buffer: struct block. */
  datatype Buf = Buf(blockno: word, valid: bool, dirty: bool, refcnt: nat, data: Sector)

  /** A buffer is in use if it is valid or somebody holds it. */
  predicate Live(b: Buf) {
    b.valid || b.refcnt > 0
  }

  /** At most one buffer is in use for a block number, and it is the first that carries the number: the many
      buffers that carry the number 0 before they are first used are no exception. */
  ghost predicate TagsUnique(blocks: seq<Buf>) {
    forall i, j :: 0 <= i < j < |blocks| && blocks[i].blockno == blocks[j].blockno ==> !Live(blocks[j])
  }

  ghost predicate BufOk(b: Buf, flat: seq<Sector>)
    requires |flat| == NSECTOR
  {
    b.blockno < NSECTOR && !b.dirty && (b.refcnt > 0 ==> b.valid) && (b.valid ==> b.data == flat[b.blockno])
  }

  ghost predicate HeldFor(blocks: seq<Buf>, n: nat) {
    exists i :: 0 <= i < |blocks| && blocks[i].blockno == n && blocks[i].refcnt > 0
  }

  /** flat is what the disk holds once the blocks in `pending` are written; only held buffers may be pending. */
  ghost predicate CacheOk(blocks: seq<Buf>, disk: seq<Sector>, flat: seq<Sector>, pending: set<nat>) {
    && |blocks| == NBUF && |disk| == |flat| == NSECTOR
    && TagsUnique(blocks) && (forall i :: 0 <= i < NBUF ==> BufOk(blocks[i], flat))
    && (forall n :: 0 <= n < NSECTOR && n !in pending ==> flat[n] == disk[n])
    && (forall n :: n in pending ==> HeldFor(blocks, n))
  }

  /** The buffers that are held. */
  ghost function HeldBufs(blocks: seq<Buf>): set<nat> {
    set i | 0 <= i < |blocks| && blocks[i].refcnt > 0
  }

  /** As long as fewer than 256 buffers are held there is one to be had. */
  lemma RoomLeft(blocks: seq<Buf>)
    requires |blocks| == NBUF && |HeldBufs(blocks)| < NBUF
    ensures exists i :: 0 <= i < NBUF && blocks[i].refcnt == 0
  {
    if forall i :: 0 <= i < NBUF ==> blocks[i].refcnt > 0 {
      CountRange(HeldBufs(blocks), 0, NBUF);
    }
  }

  class Cache {
    const blocks: array<Buf>
    var disk: seq<Sector>
    ghost var flat: seq<Sector>
    ghost var pending: set<nat>

    ghost predicate Valid()
      reads this, blocks
    {
      CacheOk(blocks[..], disk, flat, pending)
    }

    constructor (image: seq<Sector>)
      requires |image| == NSECTOR
      ensures Valid() && fresh(blocks) && blocks.Length == NBUF && disk == flat == image && pending == {}
      ensures HeldBufs(blocks[..]) == {}
    {
      blocks := new Buf[NBUF](_ => Buf(0, false, false, 0, ZeroSector()));
      disk, flat, pending := image, image, {};
    }

    /** What every operation leaves alone. */
    twostate predicate SameBut(i: nat)
      reads this, blocks
    {
      blocks.Length == NBUF && forall j :: 0 <= j < NBUF && j != i ==> blocks[j] == old(blocks[j])
    }

    /** The buffer for block n: the first that carries its number, else the first that nobody holds. */
    method BGet(n: nat) returns (b: nat)
      requires Valid() && n < NSECTOR && |HeldBufs(blocks[..])| < NBUF // else panic("bget: no buffers")
      modifies blocks
      ensures b < NBUF == blocks.Length && SameBut(b)
      ensures blocks[b].blockno == n && TagsUnique(blocks[..])
      ensures old(blocks[b].blockno) == n ==> blocks[b] == old(blocks[b]).(refcnt := old(blocks[b].refcnt) + 1)
      ensures old(blocks[b].blockno) != n ==>
                && old(blocks[b].refcnt) == 0 && blocks[b] == old(blocks[b]).(blockno := n, valid := false, refcnt := 1)
                && forall j :: 0 <= j < NBUF ==> old(blocks[j].blockno) != n
    {
      ghost var before := blocks[..];
      for i := 0 to NBUF
        invariant blocks[..] == before && forall j :: 0 <= j < i ==> blocks[j].blockno != n
      {
        if blocks[i].blockno == n {
          blocks[i] := blocks[i].(refcnt := blocks[i].refcnt + 1);
          TagHit(before, i);
          assert blocks[..] == before[i := blocks[i]];
          return i;
        }
      }
      RoomLeft(before);
      for i := 0 to NBUF
        invariant blocks[..] == before && forall j :: 0 <= j < i ==> blocks[j].refcnt > 0
      {
        if blocks[i].refcnt == 0 && !blocks[i].dirty {
          blocks[i] := blocks[i].(blockno := n);
          blocks[i] := blocks[i].(valid := false, dirty := false);
          blocks[i] := blocks[i].(refcnt := 1);
          assert blocks[..] == before[i := blocks[i]];
          return i;
        }
      }
      assert false;
    }

    /** iderw as one step: write the buffer if it is dirty, else fill it. */
    method IdeRw(b: nat)
      requires b < blocks.Length && |disk| == NSECTOR && blocks[b].blockno < NSECTOR // else panic("incorrect blockno")
      requires blocks[b].dirty || !blocks[b].valid // else panic("iderw: nothing to do")
      modifies blocks, `disk
      ensures forall j :: 0 <= j < blocks.Length && j != b ==> blocks[j] == old(blocks[j])
      ensures old(blocks[b].dirty) ==>
                disk == old(disk)[old(blocks[b].blockno) := old(blocks[b].data)]
                    && blocks[b] == old(blocks[b]).(valid := true, dirty := false)
      ensures !old(blocks[b].dirty) ==>
                disk == old(disk) && blocks[b] == old(blocks[b]).(valid := true, data := disk[old(blocks[b].blockno)])
    {
      if blocks[b].dirty {
        disk := disk[blocks[b].blockno := blocks[b].data];
      } else {
        blocks[b] := blocks[b].(data := disk[blocks[b].blockno]);
      }
      blocks[b] := blocks[b].(valid := true);
      blocks[b] := blocks[b].(dirty := false);
    }

    /** The contents of block n, in a buffer that is now held once more. */
    method BRead(n: nat) returns (b: nat)
      requires Valid() && n < NSECTOR && |HeldBufs(blocks[..])| < NBUF
      modifies blocks, `disk
      ensures Valid() && flat == old(flat) && pending == old(pending) && disk == old(disk)
      ensures b < NBUF == blocks.Length && SameBut(b) && blocks[b].blockno == n
      ensures blocks[b].valid && blocks[b].data == flat[n]
      ensures blocks[b].refcnt == (if old(blocks[b].blockno) == n then old(blocks[b].refcnt) else 0) + 1
      ensures old(blocks[b].refcnt) > 0 ==> blocks[b] == old(blocks[b]).(refcnt := old(blocks[b].refcnt) + 1)
    {
      ghost var before := blocks[..];
      b := BGet(n);
      if blocks[b].refcnt > 1 {
        Acquired(before, blocks[..], disk, flat, pending, b);
        return;
      }
      ReadNeeded(before, blocks[..], disk, flat, pending, b);
      if !blocks[b].valid {
        IdeRw(b);
      }
      Acquired(before, blocks[..], disk, flat, pending, b);
    }

    /** A client changes the data of a buffer it holds. */
    method Modify(b: nat, data: Sector)
      requires Valid() && b < NBUF && blocks.Length == NBUF && blocks[b].refcnt > 0
      modifies blocks, `flat, `pending
      ensures Valid() && SameBut(b) && blocks[b] == old(blocks[b]).(data := data)
      ensures blocks[b].blockno < |old(flat)| && flat == old(flat)[blocks[b].blockno := data]
      ensures pending == old(pending) + {blocks[b].blockno as nat}
    {
      ghost var before := blocks[..];
      blocks[b] := blocks[b].(data := data);
      flat := flat[blocks[b].blockno := data];
      pending := pending + {blocks[b].blockno as nat};
      assert blocks[..] == before[b := blocks[b]];
      Modified(before, disk, old(flat), old(pending), b, data);
    }

    /** Write a held buffer through to the disk. */
    method BWrite(b: nat)
      requires Valid() && b < NBUF && blocks.Length == NBUF && blocks[b].refcnt > 0
      modifies blocks, `disk, `pending
      ensures Valid() && flat == old(flat) && blocks[..] == old(blocks[..])
      ensures blocks[b].blockno < |old(disk)| && disk == old(disk)[blocks[b].blockno := blocks[b].data]
      ensures pending == old(pending) - {blocks[b].blockno as nat}
    {
      ghost var before := blocks[..];
      assert BufOk(before[b], flat);
      blocks[b] := blocks[b].(dirty := true);
      IdeRw(b);
      pending := pending - {blocks[b].blockno as nat};
      assert blocks[..] == before;
      Written(before, old(disk), flat, old(pending), b);
    }

    /** Give a buffer back; its last holder must have written what it changed. */
    method BRelse(b: nat)
      requires Valid() && b < NBUF && blocks.Length == NBUF && blocks[b].refcnt > 0
      requires blocks[b].refcnt > 1 || blocks[b].blockno as nat !in pending
      modifies blocks
      ensures Valid() && SameBut(b) && blocks[b] == old(blocks[b]).(refcnt := old(blocks[b].refcnt) - 1)
    {
      ghost var before := blocks[..];
      blocks[b] := blocks[b].(refcnt := blocks[b].refcnt - 1);
      assert blocks[..] == before[b := blocks[b]];
      ReleasedOk(before, disk, flat, pending, b);
    }
  }

  /** Taking the first buffer with a number keeps it the only one in use for that number. */
  lemma TagHit(blocks: seq<Buf>, i: nat)
    requires TagsUnique(blocks) && i < |blocks| && forall j :: 0 <= j < i ==> blocks[j].blockno != blocks[i].blockno
    ensures TagsUnique(blocks[i := blocks[i].(refcnt := blocks[i].refcnt + 1)])
  {
  }

  lemma ReadNeeded(before: seq<Buf>, after: seq<Buf>, disk: seq<Sector>, flat: seq<Sector>, pending: set<nat>, b: nat)
    requires CacheOk(before, disk, flat, pending) && b < NBUF == |after| && after[b].blockno < NSECTOR
    requires TagsUnique(after) && forall j :: 0 <= j < NBUF && j != b ==> after[j] == before[j]
    requires if before[b].blockno == after[b].blockno then after[b] == before[b].(refcnt := before[b].refcnt + 1)
             else after[b] == before[b].(blockno := after[b].blockno, valid := false, refcnt := 1)
                  && forall j :: 0 <= j < NBUF ==> before[j].blockno != after[b].blockno
    ensures !after[b].dirty
    ensures !after[b].valid ==>
              after[b].blockno as nat !in pending && flat[after[b].blockno] == disk[after[b].blockno]
  {
    assert BufOk(before[b], flat);
  }

  /** The buffer obtained is valid and in order. */
  lemma Acquired(before: seq<Buf>, after: seq<Buf>, disk: seq<Sector>, flat: seq<Sector>, pending: set<nat>, b: nat)
    requires CacheOk(before, disk, flat, pending) && b < NBUF == |after|
    requires TagsUnique(after) && forall j :: 0 <= j < NBUF && j != b ==> after[j] == before[j]
    requires BufOk(after[b], flat) && after[b].refcnt > 0
    requires before[b].refcnt > 0 ==> after[b].blockno == before[b].blockno
    ensures CacheOk(after, disk, flat, pending)
  {
    forall n | n in pending
      ensures HeldFor(after, n)
    {
      var i :| 0 <= i < NBUF && before[i].blockno == n && before[i].refcnt > 0;
      assert i != b ==> after[i] == before[i];
      assert after[i].blockno == n && after[i].refcnt > 0;
    }
  }

  lemma Modified(blocks: seq<Buf>, disk: seq<Sector>, flat: seq<Sector>, pending: set<nat>, b: nat, data: Sector)
    requires CacheOk(blocks, disk, flat, pending) && b < NBUF && blocks[b].refcnt > 0
    ensures blocks[b].blockno < NSECTOR
    ensures CacheOk(blocks[b := blocks[b].(data := data)], disk, flat[blocks[b].blockno := data],
        pending + {blocks[b].blockno as nat})
  {
    var after, n := blocks[b := blocks[b].(data := data)], blocks[b].blockno;
    assert BufOk(blocks[b], flat);
    forall i | 0 <= i < NBUF
      ensures BufOk(after[i], flat[n := data])
    {
      assert BufOk(blocks[i], flat);
    }
    forall m | m in pending + {n as nat}
      ensures HeldFor(after, m)
    {
      if m == n {
        assert after[b].blockno == n;
      } else {
        var i :| 0 <= i < NBUF && blocks[i].blockno == m && blocks[i].refcnt > 0;
        assert after[i].blockno == m;
      }
    }
  }

  lemma Written(blocks: seq<Buf>, disk: seq<Sector>, flat: seq<Sector>, pending: set<nat>, b: nat)
    requires CacheOk(blocks, disk, flat, pending) && b < NBUF && blocks[b].refcnt > 0
    ensures blocks[b].blockno < NSECTOR
    ensures CacheOk(blocks, disk[blocks[b].blockno := blocks[b].data], flat, pending - {blocks[b].blockno as nat})
  {
    assert BufOk(blocks[b], flat);
  }

  lemma ReleasedOk(blocks: seq<Buf>, disk: seq<Sector>, flat: seq<Sector>, pending: set<nat>, b: nat)
    requires CacheOk(blocks, disk, flat, pending) && b < NBUF && blocks[b].refcnt > 0
    requires blocks[b].refcnt > 1 || blocks[b].blockno as nat !in pending
    ensures CacheOk(blocks[b := blocks[b].(refcnt := blocks[b].refcnt - 1)], disk, flat, pending)
  {
    var after := blocks[b := blocks[b].(refcnt := blocks[b].refcnt - 1)];
    forall i | 0 <= i < NBUF
      ensures BufOk(after[i], flat)
    {
      assert BufOk(blocks[i], flat);
    }
    forall m | m in pending
      ensures HeldFor(after, m)
    {
      var i :| 0 <= i < NBUF && blocks[i].blockno == m && blocks[i].refcnt > 0;
      assert after[i].blockno == m;
    }
  }

  /** A block with unwritten changes is held, so bread only adds a holder to it. */
  lemma PendingShared(before: seq<Buf>, after: seq<Buf>, disk: seq<Sector>, flat: seq<Sector>, pending: set<nat>,
                      b: nat)
    requires CacheOk(before, disk, flat, pending) && CacheOk(after, disk, flat, pending) && b < NBUF
    requires forall j :: 0 <= j < NBUF && j != b ==> after[j] == before[j]
    requires after[b].refcnt == (if before[b].blockno == after[b].blockno then before[b].refcnt else 0) + 1
    ensures after[b].refcnt > 1 || after[b].blockno as nat !in pending
  {
    if after[b].blockno as nat in pending {
      var i :| 0 <= i < NBUF && before[i].blockno == after[b].blockno && before[i].refcnt > 0;
      assert i == b;
    }
  }

  /** bread adds at most one to the buffers that are held. */
  lemma HeldOneMore(before: seq<Buf>, after: seq<Buf>, b: nat)
    requires b < |before| == |after| && forall j :: 0 <= j < |before| && j != b ==> after[j] == before[j]
    ensures |HeldBufs(after)| <= |HeldBufs(before)| + 1
  {
    assert HeldBufs(after) <= HeldBufs(before) + {b};
    SubsetCount(HeldBufs(after), HeldBufs(before) + {b});
  }

  /** With nothing pending the disk is what its readers see. */
  lemma NothingPending(blocks: seq<Buf>, disk: seq<Sector>, flat: seq<Sector>)
    requires CacheOk(blocks, disk, flat, {})
    ensures flat == disk
  {
  }

  // ---- runs ----------------------------------------------------------------------------------

  /** What clients ask for: a block, a change to a buffer, a write, a release. */
  datatype Op = ReadOp(n: nat) | ChangeOp(b: nat, data: Sector) | WriteOp(b: nat) | ReleaseOp(b: nat)

  /** What they get: a buffer with its contents, or just what they asked for; or the request is refused because it
      breaks the rules or no buffer is left. */
  datatype Answer = Refused | Got(b: nat, data: Sector) | Done

  /** A buffer as its holders see it: the block it stands for, and how often it is held. */
  datatype Holding = Holding(block: nat, count: nat)

  /** The cache as its clients see it: a plain disk, the buffers they hold, the blocks they have not written yet. */
  datatype Clients = Clients(flat: seq<Sector>, held: map<nat, Holding>, unwritten: set<nat>)

  function HeldAs(blocks: seq<Buf>): map<nat, Holding> {
    map b | 0 <= b < |blocks| && blocks[b].refcnt > 0 :: Holding(blocks[b].blockno, blocks[b].refcnt)
  }

  ghost function ClientsOf(c: Cache): Clients
    reads c, c.blocks
  {
    Clients(c.flat, HeldAs(c.blocks[..]), c.pending)
  }

  /** One request on a plain disk. A read is refused only when all 256 buffers are held, or there is no such block; a
      change or a write only if the buffer is not held; a release if it is not held, or would lose a change. */
  ghost predicate Served(x: Clients, op: Op, r: Answer, y: Clients) {
    match op
    case ReadOp(n) =>
      if n >= |x.flat| || |x.held| == NBUF then r == Refused && y == x
      else
        && r.Got? && r.data == x.flat[n] && r.b < NBUF
        && (if r.b in x.held then x.held[r.b].block == n else forall b :: b in x.held ==> x.held[b].block != n)
        && y == x.(held := x.held[r.b := Holding(n, 1 + if r.b in x.held then x.held[r.b].count else 0)])
    case ChangeOp(b, data) =>
      if b !in x.held then r == Refused && y == x
      else
        && r == Done && x.held[b].block < |x.flat|
        && y == x.(flat := x.flat[x.held[b].block := data], unwritten := x.unwritten + {x.held[b].block})
    case WriteOp(b) =>
      if b !in x.held then r == Refused && y == x
      else r == Done && y == x.(unwritten := x.unwritten - {x.held[b].block})
    case ReleaseOp(b) =>
      if b !in x.held || (x.held[b].count == 1 && x.held[b].block in x.unwritten) then r == Refused && y == x
      else
        && r == Done
        && y == x.(held := if x.held[b].count > 1 then x.held[b := Holding(x.held[b].block, x.held[b].count - 1)]
                           else x.held - {b})
  }

  lemma HeldCount(blocks: seq<Buf>)
    ensures HeldAs(blocks).Keys == HeldBufs(blocks) && |HeldAs(blocks)| == |HeldBufs(blocks)|
  {
    assert HeldAs(blocks).Keys == HeldBufs(blocks);
  }

  /** Is there a buffer that nobody holds? */
  method AnyFree(c: Cache) returns (free: bool)
    requires c.Valid() && c.blocks.Length == NBUF
    ensures free <==> |HeldBufs(c.blocks[..])| < NBUF
    ensures !free ==> |HeldBufs(c.blocks[..])| == NBUF
  {
    for i := 0 to NBUF
      invariant forall j :: 0 <= j < i ==> c.blocks[j].refcnt > 0
    {
      if c.blocks[i].refcnt == 0 {
        NotAllHeld(c.blocks[..], i);
        return true;
      }
    }
    CountRange(HeldBufs(c.blocks[..]), 0, NBUF);
    return false;
  }

  lemma NotAllHeld(blocks: seq<Buf>, i: nat)
    requires i < |blocks| == NBUF && blocks[i].refcnt == 0
    ensures |HeldBufs(blocks)| < NBUF
  {
    AtMostBelow(HeldBufs(blocks) + {i}, NBUF);
  }

  lemma PendingKnown(blocks: seq<Buf>, disk: seq<Sector>, flat: seq<Sector>, pending: set<nat>)
    requires CacheOk(blocks, disk, flat, pending)
    ensures |blocks| == NBUF && |disk| == |flat| == NSECTOR
    ensures forall b :: 0 <= b < NBUF ==> blocks[b].blockno < NSECTOR
  {
    forall b | 0 <= b < NBUF
      ensures blocks[b].blockno < NSECTOR
    {
      assert BufOk(blocks[b], flat);
    }
  }

  /** bread adds one holder to the one buffer that stands for the block. */
  lemma HeldAfterRead(before: seq<Buf>, after: seq<Buf>, disk: seq<Sector>, flat: seq<Sector>, pending: set<nat>,
                      b: nat, n: nat)
    requires CacheOk(before, disk, flat, pending) && CacheOk(after, disk, flat, pending) && b < NBUF
    requires forall j :: 0 <= j < NBUF && j != b ==> after[j] == before[j]
    requires after[b].blockno == n && after[b].refcnt == (if before[b].blockno == n then before[b].refcnt else 0) + 1
    requires before[b].refcnt > 0 ==> after[b] == before[b].(refcnt := before[b].refcnt + 1)
    ensures var held := HeldAs(before);
            && (if b in held then held[b].block == n else forall i :: i in held ==> held[i].block != n)
            && HeldAs(after) == held[b := Holding(n, 1 + if b in held then held[b].count else 0)]
  {
  }

  lemma HeldAfterRelease(blocks: seq<Buf>, after: seq<Buf>, b: nat)
    requires b < |blocks| && blocks[b].refcnt > 0 && after == blocks[b := blocks[b].(refcnt := blocks[b].refcnt - 1)]
    ensures var held := HeldAs(blocks);
            HeldAs(after)
            == if held[b].count > 1 then held[b := Holding(held[b].block, held[b].count - 1)] else held - {b}
  {
  }

  lemma HeldSame(blocks: seq<Buf>, after: seq<Buf>, b: nat, data: Sector)
    requires b < |blocks| && after == blocks[b := blocks[b].(data := data)]
    ensures HeldAs(after) == HeldAs(blocks)
  {
  }

  /** One request of a client. */
  method Serve(c: Cache, op: Op, changed: set<nat>) returns (r: Answer, changed': set<nat>)
    requires c.Valid() && c.blocks.Length == NBUF && changed == c.pending
    modifies c, c.blocks
    ensures c.Valid() && changed' == c.pending
    ensures Served(old(ClientsOf(c)), op, r, ClientsOf(c))
  {
    hide CacheOk, HeldBufs;
    ghost var before := c.blocks[..];
    PendingKnown(before, c.disk, c.flat, c.pending);
    HeldCount(before);
    r, changed' := Refused, changed;
    match op {
      case ReadOp(n) =>
        var free := AnyFree(c);
        if n < NSECTOR && free {
          var b := c.BRead(n);
          HeldAfterRead(before, c.blocks[..], c.disk, c.flat, c.pending, b, n);
          r := Got(b, c.blocks[b].data);
        }
      case ChangeOp(b, data) =>
        if b < NBUF && c.blocks[b].refcnt > 0 {
          c.Modify(b, data);
          assert c.blocks[..] == before[b := before[b].(data := data)];
          HeldSame(before, c.blocks[..], b, data);
          changed' := changed + {c.blocks[b].blockno as nat};
          r := Done;
        }
      case WriteOp(b) =>
        if b < NBUF && c.blocks[b].refcnt > 0 {
          c.BWrite(b);
          changed' := changed - {c.blocks[b].blockno as nat};
          r := Done;
        }
      case ReleaseOp(b) =>
        if b < NBUF && c.blocks[b].refcnt > 0 && (c.blocks[b].refcnt > 1 || c.blocks[b].blockno as nat !in changed) {
          c.BRelse(b);
          assert c.blocks[..] == before[b := before[b].(refcnt := before[b].refcnt - 1)];
          HeldAfterRelease(before, c.blocks[..], b);
          r := Done;
        }
    }
  }

  ghost predicate ServedAt(ops: seq<Op>, log: seq<Answer>, states: seq<Clients>, i: nat)
    requires i < |ops| && i < |log| && i + 1 < |states|
  {
    Served(states[i], ops[i], log[i], states[i + 1])
  }

  /** Any run of clients. Request by request the cache answers as a plain disk would, and once all buffers are released
      the disk itself holds what they have written. */
  method RunClients(c: Cache, ops: seq<Op>) returns (log: seq<Answer>, ghost states: seq<Clients>)
    requires c.Valid() && c.blocks.Length == NBUF && c.pending == {}
    modifies c, c.blocks
    ensures c.Valid() && |log| == |ops| && |states| == |ops| + 1
    ensures states[0] == old(ClientsOf(c)) && states[|ops|] == ClientsOf(c)
    ensures forall i :: 0 <= i < |ops| ==> ServedAt(ops, log, states, i)
    ensures forall n :: 0 <= n < |c.disk| == |c.flat| && n !in c.pending ==> c.disk[n] == c.flat[n]
    ensures ClientsOf(c).held == map[] ==> c.disk == c.flat
  {
    hide CacheOk, HeldBufs, HeldAs, Served;
    log := [];
    states := [ClientsOf(c)];
    var changed: set<nat> := {}; // the blocks with changes that are not yet written
    for i := 0 to |ops|
      invariant c.Valid() && changed == c.pending && c.blocks.Length == NBUF
      invariant |log| == i && |states| == i + 1 && states[0] == old(ClientsOf(c)) && states[i] == ClientsOf(c)
      invariant forall j :: 0 <= j < i ==> ServedAt(ops, log, states, j)
    {
      ghost var log0, states0 := log, states;
      var r;
      r, changed := Serve(c, ops[i], changed);
      log := log + [r];
      states := states + [ClientsOf(c)];
      forall j | 0 <= j < i + 1
        ensures ServedAt(ops, log, states, j)
      {
        assert j < i ==> ServedAt(ops, log0, states0, j);
      }
    }
    DiskAtRest(c.blocks[..], c.disk, c.flat, c.pending);
  }

  /** Blocks without unwritten changes are on the disk; if nobody holds a buffer, there are no others. */
  lemma DiskAtRest(blocks: seq<Buf>, disk: seq<Sector>, flat: seq<Sector>, pending: set<nat>)
    requires CacheOk(blocks, disk, flat, pending)
    ensures forall n :: 0 <= n < |disk| == |flat| && n !in pending ==> disk[n] == flat[n]
    ensures HeldAs(blocks) == map[] ==> disk == flat
  {
    if HeldAs(blocks) == map[] {
      forall n | n in pending
        ensures false
      {
        HeldMeansSome(blocks, n);
      }
    }
  }

  lemma HeldMeansSome(blocks: seq<Buf>, n: nat)
    requires HeldFor(blocks, n)
    ensures HeldAs(blocks) != map[]
  {
    var i :| 0 <= i < |blocks| && blocks[i].blockno == n && blocks[i].refcnt > 0;
    assert i in HeldAs(blocks);
  }

  lemma {:induction false} UnchangedStays(ops: seq<Op>, log: seq<Answer>, states: seq<Clients>, n: nat, from: nat,
      to: nat)
    requires |log| == |ops| && |states| == |ops| + 1 && from <= to <= |ops| && n < |states[from].flat|
    requires forall i :: 0 <= i < |ops| ==> ServedAt(ops, log, states, i)
    requires forall i :: from <= i < to ==> !ChangesBlock(states, ops, i, n)
    ensures |states[to].flat| == |states[from].flat| && states[to].flat[n] == states[from].flat[n]
  {
    if from < to {
      UnchangedStays(ops, log, states, n, from, to - 1);
      assert ServedAt(ops, log, states, to - 1) && !ChangesBlock(states, ops, to - 1, n);
    }
  }

  /** Request i is a change to a buffer that is held for block n. */
  ghost predicate ChangesBlock(states: seq<Clients>, ops: seq<Op>, i: nat, n: nat)
    requires i < |ops| && i < |states|
  {
    ops[i].ChangeOp? && ops[i].b in states[i].held && states[i].held[ops[i].b].block == n
  }

  /** What a client reads is what was last put into the block, however many reads, writes, releases and evictions and
      changes to other blocks there were in between. */
  lemma ReadsLastChange(ops: seq<Op>, log: seq<Answer>, states: seq<Clients>, i: nat, j: nat)
    requires |log| == |ops| && |states| == |ops| + 1 && i < j < |ops|
    requires forall k :: 0 <= k < |ops| ==> ServedAt(ops, log, states, k)
    requires ops[i].ChangeOp? && ops[i].b in states[i].held && ops[j].ReadOp? && log[j].Got?
    requires ops[j].n == states[i].held[ops[i].b].block
    requires forall k :: i < k < j ==> !ChangesBlock(states, ops, k, ops[j].n)
    ensures log[j].data == ops[i].data
  {
    assert ServedAt(ops, log, states, i) && ServedAt(ops, log, states, j);
    UnchangedStays(ops, log, states, ops[j].n, i + 1, j);
  }
}
