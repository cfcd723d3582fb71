/** Programs by their bytes: what execv makes of a file whose headers hold given words at the offsets of struct elfhdr
    and struct proghdr. */
module ElfLayout {
  import opened Memory
  import opened Paging
  import opened FileSpec
  import opened UserStack
  import opened Elf
  import opened Vm
  import opened Exec

  /** struct proghdr, all eight words of it. */
  datatype ProgHdr = ProgHdr(kind: word, off: word, vaddr: word, paddr: word, filesz: word, memsz: word, flags: word,
                             align: word)

  /** Program header h lies at offset o of the file, little-endian word by word. */
  ghost predicate HeaderAt(f: seq<byte>, o: nat, h: ProgHdr) {
    && o + 32 <= |f|
    && f[o..o + 32] == WordBytes([h.kind, h.off, h.vaddr, h.paddr, h.filesz, h.memsz, h.flags, h.align])
  }

  /** f begins with an ELF header: the magic, the entry point at 24, the offset of the program headers at 28, their
      number at 44. */
  ghost predicate ElfFile(f: seq<byte>, entry: word, phoff: word, hs: seq<ProgHdr>) {
    && 52 <= |f| <= NADDR * SECTSIZE && |hs| < 0x1_0000
    && f[0..4] == [0x7F, 0x45, 0x4C, 0x46]
    && f[24..28] == WordBytes([entry]) && f[28..32] == WordBytes([phoff])
    && f[44] as int + 0x100 * f[45] as int == |hs|
    && forall i :: 0 <= i < |hs| ==> HeaderAt(f, phoff + 32 * i, hs[i])
  }

  /** The segment of h is to be loaded and covers address a. */
  predicate In(h: ProgHdr, a: nat) {
    h.kind == 1 && h.vaddr <= a < h.vaddr + h.memsz
  }

  /** Of the first k headers, i is the last one that covers a. */
  ghost predicate LastIn(hs: seq<ProgHdr>, k: nat, i: nat, a: nat)
    requires k <= |hs|
  {
    i < k && In(hs[i], a) && forall j :: i < j < k ==> !In(hs[j], a)
  }

  // ---- reading the words ---------------------------------------------------------------------

  lemma WordInBytes(f: seq<byte>, o: nat, ws: seq<word>, k: nat)
    requires o + 4 * |ws| <= |f| && f[o..o + 4 * |ws|] == WordBytes(ws) && k < |ws|
    ensures o + 4 * k + 4 <= |f| && U32(f, o + 4 * k) == ws[k]
  {
    hide WordBytes, WordOfBytes, ByteOfWord;
    forall j | 0 <= j < 4
      ensures f[o + 4 * k + j] == ByteOfWord(ws[k], j)
    {
      WordBytesAt(ws, k, j);
      assert f[o + 4 * k + j] == f[o..o + 4 * |ws|][4 * k + j];
    }
    ByteWordRoundTrip(ws[k]);
  }

  lemma FileHeader(f: seq<byte>, entry: word, phoff: word, hs: seq<ProgHdr>)
    requires ElfFile(f, entry, phoff, hs)
    ensures HasHeader(f) && U32(f, 0) == ELF_MAGIC && U32(f, 24) == entry && U32(f, 28) == phoff && PhNum(f) == |hs|
  {
    WordInBytes(f, 24, [entry], 0);
    WordInBytes(f, 28, [phoff], 0);
    assert f[0] == f[0..4][0] && f[1] == f[0..4][1] && f[2] == f[0..4][2] && f[3] == f[0..4][3];
  }

  lemma HeaderWords(f: seq<byte>, o: nat, h: ProgHdr)
    requires HeaderAt(f, o, h)
    ensures o + 32 <= |f|
    ensures U32(f, o) == h.kind && U32(f, o + 4) == h.off && U32(f, o + 8) == h.vaddr && U32(f, o + 16) == h.filesz
    ensures U32(f, o + 20) == h.memsz
  {
    hide WordBytes, U32;
    var ws := [h.kind, h.off, h.vaddr, h.paddr, h.filesz, h.memsz, h.flags, h.align];
    WordInBytes(f, o, ws, 0);
    WordInBytes(f, o, ws, 1);
    WordInBytes(f, o, ws, 2);
    WordInBytes(f, o, ws, 4);
    WordInBytes(f, o, ws, 5);
  }

  /** The loader reads the header that is there. */
  lemma HeaderDecoded(f: seq<byte>, entry: word, phoff: word, hs: seq<ProgHdr>, i: nat)
    requires ElfFile(f, entry, phoff, hs) && i < |hs|
    ensures HasHeader(f) && PhNum(f) == |hs| && PhReadable(f, i)
    ensures Ph(f, i) == Segment(hs[i].kind, hs[i].off, hs[i].vaddr, hs[i].filesz, hs[i].memsz)
  {
    hide U32, WordBytes;
    FileHeader(f, entry, phoff, hs);
    assert HeaderAt(f, phoff + 32 * i, hs[i]);
    HeaderWords(f, phoff + 32 * i, hs[i]);
    assert PhOff(f, i) == phoff + 32 * i;
  }

  // ---- which files are programs --------------------------------------------------------------

  /** What execv demands of a header: of a segment to be loaded, that it is no shorter in memory than in the file,
      starts at a page, lies in the file, and leaves room below USEREND for the guard page, the stack page and one
      more. */
  predicate HeaderFine(h: ProgHdr, length: nat) {
    h.kind == 1 ==>
      && h.filesz <= h.memsz && h.vaddr % 0x1000 == 0 && h.vaddr + h.memsz <= 0xFFC0_0000 - 3 * 0x1000
      && (h.filesz == 0 || h.off + h.filesz <= length)
  }

  /** The end of the image and what the headers say. */
  lemma {:induction false} EndOfImage(f: seq<byte>, entry: word, phoff: word, hs: seq<ProgHdr>, k: nat)
    requires ElfFile(f, entry, phoff, hs) && k <= |hs|
    ensures HasHeader(f)
    ensures forall i :: 0 <= i < k && hs[i].kind == 1 ==> hs[i].vaddr + hs[i].memsz <= ImageEnd(f, k)
    ensures ImageEnd(f, k) == KERNEND
            || exists i :: 0 <= i < k && hs[i].kind == 1 && ImageEnd(f, k) == hs[i].vaddr + hs[i].memsz
  {
    hide ElfFile, Ph, PhReadable, U32;
    FileHeader(f, entry, phoff, hs);
    if k > 0 {
      EndOfImage(f, entry, phoff, hs, k - 1);
      HeaderDecoded(f, entry, phoff, hs, k - 1);
      assert hs[k - 1].kind == 1 <==> Loadable(f, k - 1);
    }
  }

  /** The programs that execv accepts, by what stands in the file. */
  lemma ProgramsAccepted(f: seq<byte>, entry: word, phoff: word, hs: seq<ProgHdr>)
    requires ElfFile(f, entry, phoff, hs)
    ensures Executable(f) <==> forall i :: 0 <= i < |hs| ==> HeaderFine(hs[i], |f|)
  {
    hide ElfFile, Ph, PhReadable, U32, ImageEnd;
    FileHeader(f, entry, phoff, hs);
    EndOfImage(f, entry, phoff, hs, |hs|);
    RoomAbove(ImageEnd(f, |hs|));
    forall i | 0 <= i < |hs|
      ensures HeaderFine(hs[i], |f|) <==>
                SegmentSane(f, i) && (hs[i].kind == 1 ==> hs[i].vaddr + hs[i].memsz <= USEREND - 3 * PAGESIZE)
    {
      HeaderDecoded(f, entry, phoff, hs, i);
    }
  }

  lemma RoomAbove(end: nat)
    ensures (CeilPage(end) + 2) * PAGESIZE < USEREND <==> end <= USEREND - 3 * PAGESIZE
  {
  }

  // ---- what the image shows ------------------------------------------------------------------

  /** Byte j of a segment: from the file as far as the file part goes, then zero. */
  function FromFile(f: seq<byte>, h: ProgHdr, j: nat): byte {
    if j < h.filesz && h.off + j < |f| then f[h.off + j] else 0
  }

  /** Address a shows the byte of the last segment that covers it, and zero where no segment is. */
  ghost predicate ShowsSegments(f: seq<byte>, hs: seq<ProgHdr>, k: nat, a: nat, b: byte)
    requires k <= |hs|
  {
    && (forall i {:trigger LastIn(hs, k, i, a)} :: 0 <= i < k && LastIn(hs, k, i, a) ==>
          b == FromFile(f, hs[i], a - hs[i].vaddr))
    && ((forall i :: 0 <= i < k ==> !In(hs[i], a)) ==> b == 0)
  }

  /** A further segment goes over what the earlier ones have put there. */
  lemma ShowsSegmentsNext(f: seq<byte>, hs: seq<ProgHdr>, k: nat, a: nat, b: byte, c: byte)
    requires k < |hs| && ShowsSegments(f, hs, k, a, b)
    requires c == if In(hs[k], a) then FromFile(f, hs[k], a - hs[k].vaddr) else b
    ensures ShowsSegments(f, hs, k + 1, a, c)
  {
    hide FromFile;
    var n := k + 1;
    forall i {:trigger LastIn(hs, n, i, a)} | 0 <= i < n && LastIn(hs, n, i, a)
      ensures c == FromFile(f, hs[i], a - hs[i].vaddr)
    {
      if i < k {
        assert !In(hs[k], a) && LastIn(hs, k, i, a);
      }
    }
  }

  lemma {:induction false} ImageShowsSegments(f: seq<byte>, entry: word, phoff: word, hs: seq<ProgHdr>, k: nat, a: nat)
    requires k <= |hs| && ElfFile(f, entry, phoff, hs)
    ensures HasHeader(f) && ShowsSegments(f, hs, k, a, ImageByte(f, k, a))
  {
    hide ElfFile, Ph, PhReadable, U32, ShowsSegments;
    FileHeader(f, entry, phoff, hs);
    if k > 0 {
      ImageShowsSegments(f, entry, phoff, hs, k - 1, a);
      HeaderDecoded(f, entry, phoff, hs, k - 1);
      ShowsSegmentsNext(f, hs, k - 1, a, ImageByte(f, k - 1, a), ImageByte(f, k, a));
    } else {
      ShowsNoSegment(f, hs, a);
    }
  }

  lemma ShowsNoSegment(f: seq<byte>, hs: seq<ProgHdr>, a: nat)
    ensures ShowsSegments(f, hs, 0, a, 0)
  {
  }

  /** Nothing is loaded over the kernel if every segment begins in user space. */
  lemma SegmentsInUserSpace(f: seq<byte>, entry: word, phoff: word, hs: seq<ProgHdr>)
    requires ElfFile(f, entry, phoff, hs) && forall i :: 0 <= i < |hs| && hs[i].kind == 1 ==> KERNEND <= hs[i].vaddr
    ensures UserSegments(f)
  {
    hide ElfFile, Ph, PhReadable, U32, SegmentSane;
    FileHeader(f, entry, phoff, hs);
    forall i | 0 <= i < |hs| && SegmentLoads(f, i)
      ensures KERNEND <= Ph(f, i).vaddr
    {
      HeaderDecoded(f, entry, phoff, hs, i);
    }
  }
}
