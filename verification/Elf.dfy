/** The parts of an ELF file that exec looks at, and the memory image the file describes. */
module Elf {
  import opened Memory
  import opened Paging
  import opened FileSpec

  const ELF_MAGIC: word := 0x464C_457F
  const ELF_PROG_LOAD: word := 1
  const ELFHDR: nat := 52  // sizeof(struct elfhdr)
  const PROGHDR: nat := 32 // sizeof(struct proghdr)

  function U16(f: seq<byte>, o: nat): nat
    requires o + 2 <= |f|
  {
    f[o] as int + 0x100 * (f[o + 1] as int)
  }

  function U32(f: seq<byte>, o: nat): word
    requires o + 4 <= |f|
  {
    WordOfBytes(f[o], f[o + 1], f[o + 2], f[o + 3])
  }

  /** The fields of a program header that matter. */
  datatype Segment = Segment(kind: word, off: word, vaddr: word, filesz: word, memsz: word)

  predicate HasHeader(f: seq<byte>) { ELFHDR <= |f| }

  function PhNum(f: seq<byte>): nat
    requires HasHeader(f)
  {
    U16(f, 44)
  }

  /** Where program header i is read from; the sum is a 32-bit one. */
  function PhOff(f: seq<byte>, i: nat): word
    requires HasHeader(f)
  {
    (U32(f, 28) + PROGHDR * i) % 0x1_0000_0000
  }

  predicate PhReadable(f: seq<byte>, i: nat)
    requires HasHeader(f)
  {
    ReadCount(|f|, PhOff(f, i), PROGHDR) == PROGHDR
  }

  function Ph(f: seq<byte>, i: nat): Segment
    requires HasHeader(f) && PhReadable(f, i)
  {
    var o := PhOff(f, i);
    Segment(U32(f, o), U32(f, o + 4), U32(f, o + 8), U32(f, o + 16), U32(f, o + 20))
  }

  predicate Loadable(f: seq<byte>, i: nat)
    requires HasHeader(f)
  {
    PhReadable(f, i) && Ph(f, i).kind == ELF_PROG_LOAD
  }

  /** Segment i of the file covers address a. */
  predicate Covers(f: seq<byte>, i: nat, a: nat)
    requires HasHeader(f)
  {
    Loadable(f, i) && Ph(f, i).vaddr <= a < Ph(f, i).vaddr + Ph(f, i).memsz
  }

  /** What segment i puts at an address it covers: file bytes first, then zeros. */
  function SegmentByte(f: seq<byte>, i: nat, a: nat): byte
    requires HasHeader(f) && Covers(f, i, a)
  {
    var p := Ph(f, i);
    if a < p.vaddr + p.filesz && p.off + (a - p.vaddr) < |f| then f[p.off + (a - p.vaddr)] else 0
  }

  /** The byte at address a once the first k program headers have been loaded, later ones over earlier ones,
      into memory that was clear. */
  function ImageByte(f: seq<byte>, k: nat, a: nat): byte
    requires HasHeader(f)
  {
    if k == 0 then 0
    else if Covers(f, k - 1, a) then SegmentByte(f, k - 1, a)
    else ImageByte(f, k - 1, a)
  }

  /** If no two segments share an address, every address shows the one segment that covers it, or zero. */
  ghost predicate SegmentsDisjoint(f: seq<byte>)
    requires HasHeader(f)
  {
    forall i, j, a: nat :: 0 <= i < PhNum(f) && 0 <= j < PhNum(f) && Covers(f, i, a) && Covers(f, j, a) ==> i == j
  }

  lemma {:induction false} ImageOfDisjoint(f: seq<byte>, k: nat, a: nat)
    requires HasHeader(f) && SegmentsDisjoint(f) && k <= PhNum(f)
    ensures forall i :: 0 <= i < k && Covers(f, i, a) ==> ImageByte(f, k, a) == SegmentByte(f, i, a)
    ensures (forall i :: 0 <= i < k ==> !Covers(f, i, a)) ==> ImageByte(f, k, a) == 0
  {
    if k > 0 {
      ImageOfDisjoint(f, k - 1, a);
    }
  }

  /** What exec demands of program header i before it uses it. */
  predicate SegmentSane(f: seq<byte>, i: nat)
    requires HasHeader(f)
  {
    PhReadable(f, i) && (Ph(f, i).kind == ELF_PROG_LOAD ==>
      var p := Ph(f, i);
      && p.filesz <= p.memsz && p.vaddr + p.memsz < USEREND && p.vaddr % PAGESIZE == 0
      && (p.filesz == 0 || p.off + p.filesz <= |f|))
  }

  /** The end of user space after the first k headers: a segment can only push it up. */
  function ImageEnd(f: seq<byte>, k: nat): (end: nat)
    requires HasHeader(f)
    ensures end >= KERNEND
  {
    if k == 0 then KERNEND
    else
      var end := ImageEnd(f, k - 1);
      if Loadable(f, k - 1) && end <= Ph(f, k - 1).vaddr + Ph(f, k - 1).memsz
      then Ph(f, k - 1).vaddr + Ph(f, k - 1).memsz
      else end
  }

  /** Above the end nothing has been loaded. */
  lemma {:induction false} ImageBelowEnd(f: seq<byte>, k: nat, a: nat)
    requires HasHeader(f) && a >= ImageEnd(f, k)
    ensures ImageByte(f, k, a) == 0 && forall i :: 0 <= i < k ==> !Covers(f, i, a)
  {
    if k > 0 {
      ImageBelowEnd(f, k - 1, a);
    }
  }
}
