/** The argument block that exec builds at the top of the user stack. */
module UserStack {
  import opened Memory
  import opened Paging
  import opened Virtual
  import opened Strings

  const MAXARG: nat := 16 // entries of the argument vector, the last of them null
  const VECTOR: nat := 64 // its size in bytes
  const HEAD: nat := 12   // return address, argc, argv

  /** An argument as exec finds it in the caller's memory: a C string and at least one byte after its NUL. */
  predicate IsArg(s: seq<byte>) {
    HasNul(s) && Length(s) + 2 <= |s|
  }

  predicate AreArgs(args: seq<seq<byte>>) {
    |args| < MAXARG && forall i :: 0 <= i < |args| ==> IsArg(args[i])
  }

  /** The stack pointer after the first k arguments have been pushed: each takes its length plus 2, because the
      kernel's strlen counts the NUL and exec adds one more, and is then aligned down to 4. */
  function SpAfter(top: int, args: seq<seq<byte>>, k: nat): int
    requires k <= |args| && AreArgs(args)
  {
    if k == 0 then top
    else
      var sp := SpAfter(top, args, k - 1) - (Length(args[k - 1]) + 2);
      sp - sp % 4
  }

  /** How many bytes the block takes, from the top of the stack down. */
  function Need(args: seq<seq<byte>>): int
    requires AreArgs(args)
  {
    VECTOR + HEAD - SpAfter(0, args, |args|)
  }

  /** The block fits in the user pages below page tp. */
  predicate Fits(args: seq<seq<byte>>, tp: nat) {
    AreArgs(args) && KERNEND + Need(args) <= tp * PAGESIZE
  }

  /** Where the stack is does not matter, as long as its top is aligned. */
  lemma {:induction false} SpShift(top: int, args: seq<seq<byte>>, k: nat)
    requires AreArgs(args) && k <= |args| && top % 4 == 0
    ensures SpAfter(top, args, k) == top + SpAfter(0, args, k)
  {
    if k > 0 {
      SpShift(top, args, k - 1);
      AlignShift(top, SpAfter(0, args, k - 1) - (Length(args[k - 1]) + 2));
    }
  }

  lemma AlignShift(top: int, x: int)
    requires top % 4 == 0
    ensures (top + x) % 4 == x % 4
  {
  }

  lemma {:induction false} SpDescends(top: int, args: seq<seq<byte>>, j: nat, k: nat)
    requires AreArgs(args) && j <= k <= |args| && top % 4 == 0
    ensures SpAfter(top, args, k) <= SpAfter(top, args, j) && SpAfter(top, args, k) % 4 == 0
    ensures j < k ==> SpAfter(top, args, k) + Length(args[j]) + 2 <= SpAfter(top, args, j)
    ensures j < k ==> SpAfter(top, args, j + 1) + Length(args[j]) + 2 <= SpAfter(top, args, j)
  {
    if k > 0 {
      var sp := SpAfter(top, args, k - 1) - (Length(args[k - 1]) + 2);
      AlignDown(sp);
      if j < k {
        SpDescends(top, args, j, k - 1);
        SpNext(top, args, j);
      }
    }
  }

  lemma AlignDown(x: int)
    ensures (x - x % 4) % 4 == 0 && x - x % 4 <= x
  {
  }

  lemma SpNext(top: int, args: seq<seq<byte>>, j: nat)
    requires AreArgs(args) && j < |args|
    ensures SpAfter(top, args, j + 1) + Length(args[j]) + 2 <= SpAfter(top, args, j)
  {
  }

  /** The argument vector: where each string went, and zeros. */
  function Vector(top: int, args: seq<seq<byte>>): seq<int>
    requires AreArgs(args)
  {
    seq(MAXARG, i requires 0 <= i < MAXARG => if i < |args| then SpAfter(top, args, i + 1) else 0)
  }

  /** An array of words as it lies in memory. */
  function WordBytes(ws: seq<word>): seq<byte> {
    seq(4 * |ws|, k requires 0 <= k < 4 * |ws| => ByteOfWord(ws[k / 4], k % 4))
  }

  ghost predicate WordThere(s: State, d: nat, a: nat) {
    UserAddr(s, d, a) && UserAddr(s, d, a + 1) && UserAddr(s, d, a + 2) && UserAddr(s, d, a + 3)
  }

  /** The word a user program reads at address a. */
  function UserWord(s: State, d: nat, a: nat): word
    requires WordThere(s, d, a)
  {
    WordOfBytes(UserByte(s, d, a), UserByte(s, d, a + 1), UserByte(s, d, a + 2), UserByte(s, d, a + 3))
  }

  /** The bytes of user memory from a on are exactly `data`. */
  ghost predicate Shows(s: State, d: nat, a: nat, data: seq<byte>) {
    forall i :: 0 <= i < |data| ==> ShowsByte(s, d, a, data, i)
  }

  ghost predicate ShowsByte(s: State, d: nat, a: nat, data: seq<byte>, i: nat)
    requires i < |data|
  {
    UserAddr(s, d, a + i) && UserByte(s, d, a + i) == data[i]
  }

  lemma WordBytesAt(ws: seq<word>, i: nat, j: nat)
    requires i < |ws| && j < 4
    ensures WordBytes(ws)[4 * i + j] == ByteOfWord(ws[i], j)
  {
    assert (4 * i + j) / 4 == i && (4 * i + j) % 4 == j;
  }

  lemma ShowsWord(s: State, d: nat, a: nat, ws: seq<word>, i: nat)
    requires Shows(s, d, a, WordBytes(ws)) && i < |ws|
    ensures WordThere(s, d, a + 4 * i) && UserWord(s, d, a + 4 * i) == ws[i]
  {
    hide UserAddr, UserByte, WordBytes, ByteOfWord, WordOfBytes;
    WordBytesLength(ws);
    forall j | 0 <= j < 4
      ensures WordBytes(ws)[4 * i + j] == ByteOfWord(ws[i], j)
    {
      WordBytesAt(ws, i, j);
    }
    ByteWordRoundTrip(ws[i]);
    ShowsAt(s, d, a, WordBytes(ws), 4 * i);
    ShowsAt(s, d, a, WordBytes(ws), 4 * i + 1);
    ShowsAt(s, d, a, WordBytes(ws), 4 * i + 2);
    ShowsAt(s, d, a, WordBytes(ws), 4 * i + 3);
  }

  lemma WordBytesLength(ws: seq<word>)
    ensures |WordBytes(ws)| == 4 * |ws|
  {
  }

  lemma ShowsAt(s: State, d: nat, a: nat, data: seq<byte>, i: nat)
    requires Shows(s, d, a, data) && i < |data|
    ensures UserAddr(s, d, a + i) && UserByte(s, d, a + i) == data[i]
  {
    assert ShowsByte(s, d, a, data, i);
  }

  /** What is shown stays shown if it is not written over. */
  lemma ShowsKept(d: nat, s: State, t: State, va: nat, data: seq<byte>, a: nat, shown: seq<byte>)
    requires Wrote(d, s, t, va, data) && Shows(s, d, a, shown) && (va + |data| <= a || a + |shown| <= va)
    ensures Shows(t, d, a, shown)
  {
    forall i | 0 <= i < |shown|
      ensures ShowsByte(t, d, a, shown, i)
    {
      ShowsAt(s, d, a, shown, i);
    }
  }

  lemma ShowsWritten(d: nat, s: State, t: State, va: nat, data: seq<byte>)
    requires Wrote(d, s, t, va, data) && forall a: nat :: va <= a < va + |data| ==> UserAddr(s, d, a)
    ensures Shows(t, d, va, data)
  {
    forall i | 0 <= i < |data|
      ensures ShowsByte(t, d, va, data, i)
    {
      assert UserAddr(s, d, va + i);
    }
  }

  // ---- the finished stack --------------------------------------------------------------------

  /** The string of argument i as exec copies it: with its NUL and the byte after it. */
  function ArgBytes(arg: seq<byte>): seq<byte>
    requires IsArg(arg)
  {
    arg[..Length(arg) + 2]
  }

  /** The first k arguments are in place. */
  ghost predicate ArgsShown(s: State, e: nat, top: nat, args: seq<seq<byte>>, k: nat)
    requires k <= |args| && AreArgs(args)
  {
    forall i :: 0 <= i < k ==> ArgShown(s, e, top, args, i)
  }

  ghost predicate ArgShown(s: State, e: nat, top: nat, args: seq<seq<byte>>, i: nat)
    requires i < |args| && AreArgs(args)
  {
    SpAfter(top, args, i + 1) >= 0 && Shows(s, e, SpAfter(top, args, i + 1), ArgBytes(args[i]))
  }

  /** The new program finds, from its stack pointer up: the fake return address, argc, and the address of a
      vector of argc pointers to its arguments followed by zeros. */
  ghost predicate StackBuilt(s: State, e: nat, top: nat, args: seq<seq<byte>>, sp: nat)
    requires AreArgs(args)
  {
    && sp == top - Need(args) && ArgsShown(s, e, top, args, |args|)
    && WordThere(s, e, sp) && UserWord(s, e, sp) == 0xFFFF_FFFF
    && WordThere(s, e, sp + 4) && UserWord(s, e, sp + 4) == |args|
    && WordThere(s, e, sp + 8) && UserWord(s, e, sp + 8) == sp + HEAD
    && (forall i :: 0 <= i < MAXARG ==> WordThere(s, e, sp + HEAD + 4 * i)
                                        && UserWord(s, e, sp + HEAD + 4 * i) == Vector(top, args)[i])
  }

  lemma BuiltFromShown(s: State, e: nat, top: nat, args: seq<seq<byte>>, sp: nat, vec: seq<word>, head: seq<word>)
    requires AreArgs(args) && sp == top - Need(args) && ArgsShown(s, e, top, args, |args|)
    requires vec == Vector(top, args) && head == [0xFFFF_FFFF, |args|, sp + HEAD]
    requires Shows(s, e, sp, WordBytes(head)) && Shows(s, e, sp + HEAD, WordBytes(vec))
    ensures StackBuilt(s, e, top, args, sp)
  {
    hide Shows, WordBytes, UserWord, WordThere;
    ShowsWord(s, e, sp, head, 0);
    ShowsWord(s, e, sp, head, 1);
    ShowsWord(s, e, sp, head, 2);
    forall i | 0 <= i < MAXARG
      ensures WordThere(s, e, sp + HEAD + 4 * i) && UserWord(s, e, sp + HEAD + 4 * i) == Vector(top, args)[i]
    {
      ShowsWord(s, e, sp + HEAD, vec, i);
    }
  }

  /** Read back: entry i of the vector points at a NUL-terminated copy of argument i, and entry argc is null. */
  lemma StackReadsBack(s: State, e: nat, top: nat, args: seq<seq<byte>>, sp: nat, i: nat)
    requires AreArgs(args) && StackBuilt(s, e, top, args, sp) && i <= |args|
    ensures WordThere(s, e, sp + HEAD + 4 * i)
    ensures var p := UserWord(s, e, sp + HEAD + 4 * i);
            if i == |args| then p == 0
            else Shows(s, e, p, args[i][..Length(args[i])] + [0])
  {
    hide WordThere, UserWord, Shows, SpAfter;
    if i < |args| {
      assert ArgShown(s, e, top, args, i);
      ArgPrefixShown(s, e, SpAfter(top, args, i + 1), args[i]);
    }
  }

  lemma ArgPrefixShown(s: State, e: nat, p: nat, arg: seq<byte>)
    requires IsArg(arg) && Shows(s, e, p, ArgBytes(arg))
    ensures Shows(s, e, p, arg[..Length(arg)] + [0])
  {
    hide UserAddr, UserByte;
    var str := arg[..Length(arg)] + [0];
    forall j | 0 <= j < |str|
      ensures ShowsByte(s, e, p, str, j)
    {
      ShowsAt(s, e, p, ArgBytes(arg), j);
      assert str[j] == arg[j] == ArgBytes(arg)[j];
    }
  }
}
