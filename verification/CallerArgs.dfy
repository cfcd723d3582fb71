/** The path and the argument vector as a system call finds them in the caller's memory. */
module CallerArgs {
  import opened Memory
  import opened Paging
  import opened Virtual
  import opened Strings
  import opened UserStack
  import opened Allocator
  import opened Vm
  import opened ProcTable
  import opened UserMode

  /** At address a there is a C string; str is what it consists of, with its NUL. */
  ghost predicate StringAt(s: State, d: nat, a: nat, str: seq<byte>) {
    && 0 < |str| && str[|str| - 1] == 0 && (forall i :: 0 <= i < |str| - 1 ==> str[i] != 0)
    && Shows(s, d, a, str)
  }

  /** An argument string, with the byte behind its NUL, which execv copies too. */
  ghost predicate ArgAt(s: State, d: nat, a: nat, arg: seq<byte>) {
    1 < |arg| && StringAt(s, d, a, arg[..|arg| - 1]) && Shows(s, d, a, arg)
  }

  ghost predicate HasArg(s: State, d: nat, a: nat) {
    exists arg :: ArgAt(s, d, a, arg)
  }

  /** Word k of the vector at argv is the address of string arg. */
  ghost predicate PointsTo(s: State, d: nat, argv: nat, k: nat, arg: seq<byte>) {
    && WordThere(s, d, argv + 4 * k) && UserWord(s, d, argv + 4 * k) != 0
    && ArgAt(s, d, UserWord(s, d, argv + 4 * k), arg)
  }

  /** The first n arguments of the vector at argv. */
  ghost predicate VectorAt(s: State, d: nat, argv: nat, args: seq<seq<byte>>) {
    forall k :: 0 <= k < |args| ==> PointsTo(s, d, argv, k, args[k])
  }

  /** The arguments of execv: none for a null pointer, else those up to the null word of the vector, at most 15. */
  ghost predicate ArgsAt(s: State, d: nat, argv: word, args: seq<seq<byte>>) {
    if argv == 0 then args == []
    else
      && |args| < MAXARG && VectorAt(s, d, argv, args)
      && WordThere(s, d, argv + 4 * |args|) && UserWord(s, d, argv + 4 * |args|) == 0
  }

  /** There is only one string at an address. */
  lemma StringUnique(s: State, d: nat, a: nat, p: seq<byte>, q: seq<byte>)
    requires StringAt(s, d, a, p) && StringAt(s, d, a, q)
    ensures p == q
  {
    hide UserAddr, UserByte;
    forall i | 0 <= i < |p| && i < |q|
      ensures p[i] == q[i]
    {
      assert ShowsByte(s, d, a, p, i) && ShowsByte(s, d, a, q, i);
    }
    if |p| < |q| {
      assert false;
    } else if |q| < |p| {
      assert false;
    }
  }

  lemma StringEnds(str: seq<byte>)
    requires 0 < |str| && str[|str| - 1] == 0 && forall i :: 0 <= i < |str| - 1 ==> str[i] != 0
    ensures HasNul(str) && Length(str) == |str| - 1
  {
  }

  /** Strings in memory are arguments as execv expects them. */
  lemma ArgsInMemory(s: State, d: nat, argv: word, args: seq<seq<byte>>)
    requires ArgsAt(s, d, argv, args)
    ensures AreArgs(args)
  {
    hide UserAddr, UserByte, WordThere, Shows, UserWord;
    forall k | 0 <= k < |args|
      ensures IsArg(args[k])
    {
      assert PointsTo(s, d, argv, k, args[k]);
      var str := args[k][..|args[k]| - 1];
      StringEnds(str);
      assert args[k][|str| - 1] == 0 && forall i :: 0 <= i < |str| - 1 ==> args[k][i] == str[i];
    }
  }

  // ---- fetching them -------------------------------------------------------------------------

  lemma UserAddrRange(kend: nat, s: State, d: nat, a: nat)
    requires Good(kend, s) && UserAddr(s, d, a)
    ensures KERNEND <= a < USEREND
  {
    assert SpaceOk(s.mem, s.owner, d, s.spaces[d]);
  }

  /** The byte at address a, if it is user memory. */
  method FetchByte(m: Machine, pgdir: word, a: nat) returns (b: Option<byte>)
    requires m.Valid() && IsDir(m, pgdir)
    modifies m.mem, m`coremap, m`free, m`owner, m`spaces
    ensures m.View() == old(m.View())
    ensures b.Some? <==> UserAddr(m.View(), pgdir / PAGESIZE, a)
    ensures b.Some? ==> b.value == UserByte(m.View(), pgdir / PAGESIZE, a)
  {
    hide Good, UserAddr, UserByte;
    if UserAddr(m.View(), pgdir / PAGESIZE, a) {
      UserAddrRange(m.kend, m.View(), pgdir / PAGESIZE, a);
    }
    if a < KERNEND || a >= USEREND {
      return None;
    }
    var there := Mapped(m, pgdir, a, 1);
    if !there {
      return None;
    }
    assert UserAddr(m.View(), pgdir / PAGESIZE, a);
    var value := LoadByte(m, pgdir, a);
    b := Some(value);
  }

  /** The word at address a, if it is user memory. */
  method FetchWord(m: Machine, pgdir: word, a: nat) returns (w: Option<word>)
    requires m.Valid() && IsDir(m, pgdir)
    modifies m.mem, m`coremap, m`free, m`owner, m`spaces
    ensures m.View() == old(m.View())
    ensures w.Some? <==> WordThere(m.View(), pgdir / PAGESIZE, a)
    ensures w.Some? ==> w.value == UserWord(m.View(), pgdir / PAGESIZE, a)
  {
    hide Good, UserAddr, UserByte, WordOfBytes;
    var b0 := FetchByte(m, pgdir, a);
    var b1 := FetchByte(m, pgdir, a + 1);
    var b2 := FetchByte(m, pgdir, a + 2);
    var b3 := FetchByte(m, pgdir, a + 3);
    if b0 == None || b1 == None || b2 == None || b3 == None {
      return None;
    }
    w := Some(WordOfBytes(b0.value, b1.value, b2.value, b3.value));
  }

  lemma ShowsNext(s: State, d: nat, a: nat, str: seq<byte>, b: byte)
    requires Shows(s, d, a, str) && UserAddr(s, d, a + |str|) && UserByte(s, d, a + |str|) == b
    ensures Shows(s, d, a, str + [b])
  {
    hide UserAddr, UserByte;
    forall i | 0 <= i < |str + [b]|
      ensures ShowsByte(s, d, a, str + [b], i)
    {
      if i < |str| {
        assert ShowsByte(s, d, a, str, i);
      }
    }
  }

  /** A string that goes on past memory that is not there is no string. */
  lemma StringLonger(s: State, d: nat, a: nat, start: seq<byte>, str: seq<byte>)
    requires Shows(s, d, a, start) && 0 !in start && StringAt(s, d, a, str)
    ensures |start| < |str| && UserAddr(s, d, a + |start|)
  {
    hide UserAddr, UserByte;
    forall i | 0 <= i < |str| && i < |start|
      ensures str[i] == start[i] != 0
    {
      assert ShowsByte(s, d, a, str, i) && ShowsByte(s, d, a, start, i);
      assert start[i] in start;
    }
    if |str| <= |start| {
      assert false;
    }
    assert ShowsByte(s, d, a, str, |start|);
  }

  /** The C string at address a, if there is one. */
  method FetchString(m: Machine, pgdir: word, a: nat) returns (str: Option<seq<byte>>)
    requires m.Valid() && IsDir(m, pgdir)
    modifies m.mem, m`coremap, m`free, m`owner, m`spaces
    ensures m.View() == old(m.View())
    ensures str.Some? ==> StringAt(m.View(), pgdir / PAGESIZE, a, str.value)
    ensures str == None ==> forall t :: !StringAt(m.View(), pgdir / PAGESIZE, a, t)
  {
    hide Good, UserAddr, UserByte;
    ghost var s, d := m.View(), pgdir / PAGESIZE;
    var start: seq<byte> := [];
    var b := FetchByte(m, pgdir, a);
    while b.Some? && b.value != 0
      invariant m.View() == s && m.Valid() && IsDir(m, pgdir) && Shows(s, d, a, start) && 0 !in start
      invariant b.Some? <==> UserAddr(s, d, a + |start|)
      invariant b.Some? ==> b.value == UserByte(s, d, a + |start|)
      invariant start == [] || a + |start| <= USEREND
      decreases USEREND - (a + |start|)
    {
      ShowsNext(s, d, a, start, b.value);
      UserAddrRange(m.kend, s, d, a + |start|);
      start := start + [b.value];
      b := FetchByte(m, pgdir, a + |start|);
    }
    if b == None {
      forall t | StringAt(s, d, a, t)
        ensures false
      {
        StringLonger(s, d, a, start, t);
      }
      return None;
    }
    ShowsNext(s, d, a, start, 0);
    str := Some(start + [0]);
  }

  lemma ArgLonger(s: State, d: nat, a: nat, str: seq<byte>, arg: seq<byte>)
    requires StringAt(s, d, a, str) && ArgAt(s, d, a, arg)
    ensures UserAddr(s, d, a + |str|)
  {
    hide UserAddr, UserByte;
    StringUnique(s, d, a, str, arg[..|arg| - 1]);
    assert ShowsByte(s, d, a, arg, |arg| - 1);
  }

  /** An argument: the string at address a, and one byte more. */
  method FetchArg(m: Machine, pgdir: word, a: nat) returns (arg: Option<seq<byte>>)
    requires m.Valid() && IsDir(m, pgdir)
    modifies m.mem, m`coremap, m`free, m`owner, m`spaces
    ensures m.View() == old(m.View())
    ensures arg.Some? ==> ArgAt(m.View(), pgdir / PAGESIZE, a, arg.value)
    ensures arg == None ==> !HasArg(m.View(), pgdir / PAGESIZE, a)
  {
    hide Good, UserAddr, UserByte;
    ghost var s, d := m.View(), pgdir / PAGESIZE;
    var str := FetchString(m, pgdir, a);
    if str == None {
      return None;
    }
    var b := FetchByte(m, pgdir, a + |str.value|);
    if b == None {
      forall t | ArgAt(s, d, a, t)
        ensures false
      {
        ArgLonger(s, d, a, str.value, t);
      }
      return None;
    }
    ShowsNext(s, d, a, str.value, b.value);
    arg := Some(str.value + [b.value]);
    assert arg.value[..|arg.value| - 1] == str.value;
  }

  lemma WordNotNull(s: State, d: nat, argv: nat, args: seq<seq<byte>>, k: nat)
    requires VectorAt(s, d, argv, args) && k < |args|
    ensures WordThere(s, d, argv + 4 * k) && UserWord(s, d, argv + 4 * k) != 0
  {
    hide UserAddr, UserByte, ArgAt, WordThere, UserWord;
    assert PointsTo(s, d, argv, k, args[k]);
  }

  /** Arguments that begin differently from what the vector holds are not its arguments. */
  lemma VectorLonger(s: State, d: nat, argv: word, start: seq<seq<byte>>, args: seq<seq<byte>>)
    requires argv != 0 && VectorAt(s, d, argv, start) && ArgsAt(s, d, argv, args)
    ensures |start| <= |args| && WordThere(s, d, argv + 4 * |start|)
    ensures UserWord(s, d, argv + 4 * |start|) != 0 ==>
              |start| + 1 < MAXARG && HasArg(s, d, UserWord(s, d, argv + 4 * |start|))
  {
    hide UserAddr, UserByte, ArgAt, WordThere, UserWord;
    if |args| < |start| {
      WordNotNull(s, d, argv, start, |args|);
    }
    if |start| < |args| {
      assert PointsTo(s, d, argv, |start|, args[|start|]);
    }
  }

  lemma VectorNext(s: State, d: nat, argv: word, args: seq<seq<byte>>, arg: seq<byte>)
    requires VectorAt(s, d, argv, args) && PointsTo(s, d, argv, |args|, arg)
    ensures VectorAt(s, d, argv, args + [arg])
  {
    hide PointsTo;
    forall k | 0 <= k < |args + [arg]|
      ensures PointsTo(s, d, argv, k, (args + [arg])[k])
    {
      assert k < |args| ==> (args + [arg])[k] == args[k];
    }
  }

  /** The arguments at argv, if they are in memory and there are at most 15. */
  method FetchArgs(m: Machine, pgdir: word, argv: word) returns (args: Option<seq<seq<byte>>>)
    requires m.Valid() && IsDir(m, pgdir)
    modifies m.mem, m`coremap, m`free, m`owner, m`spaces
    ensures m.View() == old(m.View())
    ensures args.Some? ==> ArgsAt(m.View(), pgdir / PAGESIZE, argv, args.value)
    ensures args == None ==> forall t :: !ArgsAt(m.View(), pgdir / PAGESIZE, argv, t)
  {
    hide Good, UserAddr, UserByte, ArgAt, WordThere, UserWord, VectorAt;
    if argv == 0 {
      return Some([]);
    }
    ghost var s, d := m.View(), pgdir / PAGESIZE;
    var list: seq<seq<byte>> := [];
    assert VectorAt(s, d, argv, list) by {
      NoVector(s, d, argv);
    }
    var at := FetchWord(m, pgdir, argv);
    while at.Some? && at.value != 0 && |list| + 1 < MAXARG
      invariant m.View() == s && m.Valid() && IsDir(m, pgdir) && VectorAt(s, d, argv, list) && |list| < MAXARG
      invariant at.Some? <==> WordThere(s, d, argv + 4 * |list|)
      invariant at.Some? ==> at.value == UserWord(s, d, argv + 4 * |list|)
      decreases MAXARG - |list|
    {
      var arg := FetchArg(m, pgdir, at.value);
      if arg == None {
        NoArgs(s, d, argv, list);
        return None;
      }
      VectorNext(s, d, argv, list, arg.value);
      list := list + [arg.value];
      at := FetchWord(m, pgdir, argv + 4 * |list|);
    }
    if at == None || at.value != 0 {
      NoArgs(s, d, argv, list);
      return None;
    }
    args := Some(list);
  }

  lemma NoVector(s: State, d: nat, argv: nat)
    ensures VectorAt(s, d, argv, [])
  {
  }

  lemma NoArgs(s: State, d: nat, argv: word, start: seq<seq<byte>>)
    requires argv != 0 && VectorAt(s, d, argv, start)
    requires WordThere(s, d, argv + 4 * |start|) ==>
               && UserWord(s, d, argv + 4 * |start|) != 0
               && (|start| + 1 < MAXARG ==> !HasArg(s, d, UserWord(s, d, argv + 4 * |start|)))
    ensures forall args :: !ArgsAt(s, d, argv, args)
  {
    hide ArgAt, WordThere, UserWord, VectorAt, ArgsAt;
    forall args | ArgsAt(s, d, argv, args)
      ensures false
    {
      VectorLonger(s, d, argv, start, args);
    }
  }
}
