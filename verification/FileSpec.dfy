/** What reading a file returns, as seen by a caller of readi (fs/inode.c). */
module FileSpec {
  import opened Memory

  const SECTSIZE: nat := 512
  const NADDR: nat := 124 // sectors an inode can address

  /** The return value of readi for a file of `fsize` bytes: -1, or the number of bytes read. */
  function ReadCount(fsize: nat, offset: word, size: word): int {
    if offset > fsize || offset + size >= 0x1_0000_0000 || offset / SECTSIZE >= NADDR then -1
    else if offset + size > fsize then fsize - offset
    else size
  }

  /** A read delivers what is asked for or what is left of the file, whichever is less; it is refused exactly if it
      starts behind the end, if its end is no 32-bit number, or if it starts behind the sectors an inode can address. */
  lemma ReadIsLesser(fsize: nat, offset: word, size: word)
    ensures ReadCount(fsize, offset, size)
            == if offset <= fsize && offset + size < 0x1_0000_0000 && offset < 124 * 512
               then (if size <= fsize - offset then size else fsize - offset) else -1
  {
  }

  /** A file whose blocks fit in one inode. */
  predicate FileFits(file: seq<byte>) {
    |file| <= NADDR * SECTSIZE
  }

  /** A read within the file returns all that was asked for, unless it starts at the very end of a file
      of the largest size: there the sector check refuses even an empty read. */
  lemma ReadWithin(fsize: nat, offset: word, size: word)
    requires fsize <= NADDR * SECTSIZE
    ensures ReadCount(fsize, offset, size) == size <==> offset + size <= fsize && offset < NADDR * SECTSIZE
  {
  }
}
