/** Bytes, 32-bit words and 4 KB pages: what a physical page can hold.
    A page is kept as its 1024 little-endian words, because the kernel itself reads free pages,
    page directories and page tables word by word; the byte view is derived from the words. */
module Memory {
  type byte = x: int | 0 <= x < 0x100
  type word = x: int | 0 <= x < 0x1_0000_0000

  const PAGESIZE: nat := 0x1000
  const NWORD: nat := 1024 // words in a page

  type Page = p: seq<word> | |p| == NWORD witness seq(NWORD, _ => 0)

  /** memset(page, 0, PAGESIZE) */
  function ZeroPage(): Page {
    seq(NWORD, _ => 0)
  }

  function WordOfBytes(b0: byte, b1: byte, b2: byte, b3: byte): word {
    b0 + 0x100 * (b1 + 0x100 * (b2 + 0x100 * b3))
  }

  function ByteOfWord(w: word, k: nat): byte
    requires k < 4
  {
    if k == 0 then w % 0x100
    else if k == 1 then w / 0x100 % 0x100
    else if k == 2 then w / 0x100 / 0x100 % 0x100
    else w / 0x100 / 0x100 / 0x100
  }

  /** The byte at offset k of a page (x86 is little-endian). */
  function ByteAt(p: Page, k: nat): byte
    requires k < PAGESIZE
  {
    ByteOfWord(p[k / 4], k % 4)
  }

  /** What offset k of page p holds once `data` has been copied to offset `off`. */
  function Overlaid(p: Page, off: nat, data: seq<byte>, k: nat): byte
    requires off + |data| <= PAGESIZE && k < PAGESIZE
  {
    if off <= k < off + |data| then data[k - off] else ByteAt(p, k)
  }

  /** memmove into the middle of a page. */
  function PutBytes(p: Page, off: nat, data: seq<byte>): Page
    requires off + |data| <= PAGESIZE
  {
    seq(NWORD, i requires 0 <= i < NWORD =>
      WordOfBytes(Overlaid(p, off, data, 4 * i), Overlaid(p, off, data, 4 * i + 1),
                  Overlaid(p, off, data, 4 * i + 2), Overlaid(p, off, data, 4 * i + 3)))
  }

  lemma LowByte(b: byte, rest: nat)
    ensures (b + 0x100 * rest) / 0x100 == rest && (b + 0x100 * rest) % 0x100 == b
  {
  }

  lemma WordByteRoundTrip(b: seq<byte>, k: nat)
    requires |b| == 4 && k < 4
    ensures ByteOfWord(WordOfBytes(b[0], b[1], b[2], b[3]), k) == b[k]
  {
    var q3: nat := b[3];
    var q2: nat := b[2] as int + 0x100 * q3;
    var q1: nat := b[1] as int + 0x100 * q2;
    LowByte(b[0], q1);
    LowByte(b[1], q2);
    LowByte(b[2], q3);
  }

  lemma ByteWordRoundTrip(w: word)
    ensures WordOfBytes(ByteOfWord(w, 0), ByteOfWord(w, 1), ByteOfWord(w, 2), ByteOfWord(w, 3)) == w
  {
    var q1 := w / 0x100;
    var q2 := q1 / 0x100;
    assert w == w % 0x100 + 0x100 * q1;
    assert q1 == q1 % 0x100 + 0x100 * q2;
    assert q2 == q2 % 0x100 + 0x100 * (q2 / 0x100);
  }

  /** x86 is little-endian: the byte at the lowest address has the lowest weight. */
  lemma LittleEndian(w: word)
    ensures w == ByteOfWord(w, 0) + 0x100 * ByteOfWord(w, 1) + 0x1_0000 * ByteOfWord(w, 2)
                 + 0x100_0000 * ByteOfWord(w, 3)
  {
    ByteWordRoundTrip(w);
  }

  /** Copying bytes into a page changes exactly the bytes copied. */
  lemma PutBytesAt(p: Page, off: nat, data: seq<byte>, k: nat)
    requires off + |data| <= PAGESIZE && k < PAGESIZE
    ensures ByteAt(PutBytes(p, off, data), k) == Overlaid(p, off, data, k)
  {
    var i := k / 4;
    var b := [Overlaid(p, off, data, 4 * i), Overlaid(p, off, data, 4 * i + 1),
              Overlaid(p, off, data, 4 * i + 2), Overlaid(p, off, data, 4 * i + 3)];
    WordByteRoundTrip(b, k % 4);
    assert b[k % 4] == Overlaid(p, off, data, 4 * i + k % 4);
  }
}
