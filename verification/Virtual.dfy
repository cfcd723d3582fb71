/** User memory as bytes by virtual address, and what it means to write a run of them. */
module Virtual {
  import opened Memory
  import opened Paging
  import opened Steps
  import opened Unmapping
  import opened Forking

  /** Address a is in a mapped user page of d. */
  ghost predicate UserAddr(s: State, d: nat, a: nat) {
    d in s.spaces && UPAGE <= a / PAGESIZE && a / PAGESIZE in s.spaces[d].pages
    && s.spaces[d].pages[a / PAGESIZE].frame < |s.mem|
  }

  /** The byte a user program of address space d sees at address a. */
  function UserByte(s: State, d: nat, a: nat): byte
    requires UserAddr(s, d, a)
  {
    ByteAt(s.mem[s.spaces[d].pages[a / PAGESIZE].frame], a % PAGESIZE)
  }

  /** Page p is the frame of a page of d that overlaps [va, va + len). */
  predicate Overlaps(o: Owner, d: nat, va: nat, len: nat) {
    o.Frm? && o.dir == d && va < (o.v + 1) * PAGESIZE && o.v * PAGESIZE < va + len
  }

  /** The flat-memory effect of a copy: in address space d the bytes [va, va + |data|) become data,
      every other byte of d is what it was, and no page outside that range is written. */
  ghost predicate Wrote(d: nat, s0: State, s: State, va: nat, data: seq<byte>) {
    && s == s0.(mem := s.mem) && |s.mem| == |s0.mem| == NP && |s0.owner| == NP
    && (forall a: nat :: UserAddr(s0, d, a) ==>
          UserByte(s, d, a) == if va <= a < va + |data| then data[a - va] else UserByte(s0, d, a))
    && (forall p {:trigger s.mem[p]} :: 0 <= p < NP && !Overlaps(s0.owner[p], d, va, |data|) ==> s.mem[p] == s0.mem[p])
  }

  lemma WroteNothing(d: nat, s: State, va: nat)
    requires |s.mem| == NP && |s.owner| == NP
    ensures Wrote(d, s, s, va, [])
  {
  }

  /** A chunk within the page of address a. */
  function WriteChunk(s: State, d: nat, a: nat, chunk: seq<byte>): State
    requires UserAddr(s, d, a) && a % PAGESIZE + |chunk| <= PAGESIZE
  {
    var f := s.spaces[d].pages[a / PAGESIZE].frame;
    s.(mem := s.mem[f := PutBytes(s.mem[f], a % PAGESIZE, chunk)])
  }

  /** Writing a page that is no paging structure and not free breaks nothing. */
  lemma FillFrame(kend: nat, s: State, d: nat, v: nat, data: Page)
    requires Good(kend, s) && d in s.spaces && v in s.spaces[d].pages && UPAGE <= v
    ensures s.spaces[d].pages[v].frame < |s.mem|
    ensures var t := s.(mem := s.mem[s.spaces[d].pages[v].frame := data]); Good(kend, t) && Keeps(d, s, t)
  {
    FrameOwner(kend, s, d, v);
    var t := s.(mem := s.mem[s.spaces[d].pages[v].frame := data]);
    AllocFrame(kend, s, t);
    forall e | e in t.spaces
      ensures SpaceOk(t.mem, t.owner, e, t.spaces[e])
    {
      SpaceFrame(s, t, e, s.spaces[e]);
    }
  }

  /** Different user pages of one address space have different frames. */
  lemma FramesDiffer(kend: nat, s: State, d: nat, e: nat, u: nat, v: nat)
    requires Good(kend, s) && d in s.spaces && e in s.spaces && UPAGE <= u && UPAGE <= v
    requires u in s.spaces[d].pages && v in s.spaces[e].pages && (d != e || u != v)
    ensures s.spaces[d].pages[u].frame != s.spaces[e].pages[v].frame
  {
    FrameOwner(kend, s, d, u);
    FrameOwner(kend, s, e, v);
  }

  /** What a chunk does to one byte. */
  lemma ChunkByte(kend: nat, s: State, d: nat, a: nat, chunk: seq<byte>, b: nat)
    requires Good(kend, s) && UserAddr(s, d, a) && a % PAGESIZE + |chunk| <= PAGESIZE && UserAddr(s, d, b)
    ensures UserByte(WriteChunk(s, d, a, chunk), d, b)
            == if a <= b < a + |chunk| then chunk[b - a] else UserByte(s, d, b)
  {
    hide Good;
    var f := s.spaces[d].pages[a / PAGESIZE].frame;
    if b / PAGESIZE == a / PAGESIZE {
      assert b - a == b % PAGESIZE - a % PAGESIZE;
      PutBytesAt(s.mem[f], a % PAGESIZE, chunk, b % PAGESIZE);
    } else {
      FramesDiffer(kend, s, d, d, a / PAGESIZE, b / PAGESIZE);
      OtherPage(a, |chunk|, b);
    }
  }

  lemma OtherPage(a: nat, n: nat, b: nat)
    requires a % PAGESIZE + n <= PAGESIZE && b / PAGESIZE != a / PAGESIZE
    ensures !(a <= b < a + n)
  {
  }

  lemma WroteNext(kend: nat, d: nat, s0: State, s: State, t: State, va: nat, done: seq<byte>, chunk: seq<byte>)
    requires Wrote(d, s0, s, va, done) && UserAddr(s, d, va + |done|)
    requires (va + |done|) % PAGESIZE + |chunk| <= PAGESIZE && |chunk| > 0
    requires t == WriteChunk(s, d, va + |done|, chunk) && Good(kend, s)
    ensures Good(kend, t) && Wrote(d, s0, t, va, done + chunk)
  {
    hide Good;
    var a := va + |done|;
    var v := a / PAGESIZE;
    FillFrame(kend, s, d, v, t.mem[s.spaces[d].pages[v].frame]);
    FrameOwner(kend, s, d, v);
    forall b: nat | UserAddr(s0, d, b)
      ensures UserByte(t, d, b) == if va <= b < va + |done + chunk| then (done + chunk)[b - va] else UserByte(s0, d, b)
    {
      assert UserAddr(s, d, b);
      ChunkByte(kend, s, d, a, chunk, b);
    }
    ChunkPage(a, |chunk|);
    forall p | 0 <= p < NP && !Overlaps(s0.owner[p], d, va, |done + chunk|)
      ensures t.mem[p] == s0.mem[p]
    {
      assert !Overlaps(s0.owner[p], d, va, |done|);
    }
  }

  lemma ChunkPage(a: nat, n: nat)
    requires n > 0
    ensures a < (a / PAGESIZE + 1) * PAGESIZE && a / PAGESIZE * PAGESIZE < a + n
  {
  }

  // ---- isolation -----------------------------------------------------------------------------

  /** Whatever is written through one address space, no other address space sees a change. */
  lemma Isolation(kend: nat, d: nat, e: nat, s: State, t: State, va: nat, data: seq<byte>, a: nat)
    requires Good(kend, s) && Wrote(d, s, t, va, data) && d != e && UserAddr(s, e, a)
    ensures UserAddr(t, e, a) && UserByte(t, e, a) == UserByte(s, e, a)
  {
    FrameOwner(kend, s, e, a / PAGESIZE);
  }

  /** Right after a fork the child sees the parent's bytes, and the parent still sees its own. */
  lemma ForkCopies(kend: nat, s0: State, s: State, d: nat, e: nat, rodata: nat, n: nat, a: nat)
    requires UPAGE <= a / PAGESIZE < UPAGE + n && CopyOf(s0, s, d, e, rodata, n) && Good(kend, s0)
    ensures UserAddr(s0, d, a) && UserAddr(s, d, a) && UserAddr(s, e, a)
    ensures UserByte(s, e, a) == UserByte(s0, d, a) == UserByte(s, d, a)
    ensures s.spaces[e].pages[a / PAGESIZE].flags == s0.spaces[d].pages[a / PAGESIZE].flags
    ensures s0.owner[s.spaces[e].pages[a / PAGESIZE].frame].Free?
  {
    hide Good;
    var v := a / PAGESIZE;
    FrameOwner(kend, s0, d, v);
    assert ImagesOf(s0, d, n)[v - UPAGE] == ImageOf(s0, d, v);
    assert s.spaces[d] == s0.spaces[d];
  }
}
