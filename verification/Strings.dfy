/** lib/string.c: strlen and strcmp of the kernel. */
module Strings {
  import opened Memory

  /** Bytes up to and including the first NUL are a C string; `s` is what memory holds from its start on. */
  predicate HasNul(s: seq<byte>) {
    exists i :: 0 <= i < |s| && s[i] == 0
  }

  /** The length of the C string at the start of s: the index of its first NUL. */
  function Length(s: seq<byte>): (n: nat)
    requires HasNul(s)
    ensures n < |s| && s[n] == 0 && forall i :: 0 <= i < n ==> s[i] != 0
  {
    if s[0] == 0 then 0
    else
      assert HasNul(s[1..]) by {
        var i :| 0 <= i < |s| && s[i] == 0;
        assert s[1..][i - 1] == 0;
      }
      1 + Length(s[1..])
  }

  /** The kernel's strlen counts the NUL as well. */
  method StrLen(s: seq<byte>) returns (cnt: nat)
    requires HasNul(s)
    ensures cnt == Length(s) + 1
  {
    cnt := 0;
    while s[cnt] != 0
      invariant cnt <= Length(s)
      decreases Length(s) - cnt
    {
      cnt := cnt + 1;
    }
    cnt := cnt + 1;
  }

  /** The first `limit` characters of p and q agree up to the end of p, and q ends there too. */
  ghost predicate SameName(p: seq<byte>, q: seq<byte>, limit: nat) {
    exists n :: 0 <= n <= limit && n <= |p| && n <= |q| && p[..n] == q[..n] && 0 !in p[..n]
                && (n == limit || (n < |p| && n < |q| && p[n] == 0 && q[n] == 0))
  }

  /** strcmp(p, q, limit): 1 if the strings agree within the limit, 0 if not (the other way round than in the C
      library). Both arguments must be readable up to their NUL or the limit. */
  method StrCmp(p: seq<byte>, q: seq<byte>, limit: nat) returns (r: int)
    requires limit <= |q| && (HasNul(p) || limit < |p|)
    ensures r == if SameName(p, q, limit) then 1 else 0
  {
    var i, rest := 0, limit;
    while p[i] != 0 && rest > 0
      invariant 0 <= i <= limit && i < |p| && i + rest == limit && p[..i] == q[..i] && 0 !in p[..i]
      decreases rest
    {
      if p[i] != q[i] {
        return 0;
      }
      assert p[..i + 1] == p[..i] + [p[i]] && q[..i + 1] == q[..i] + [q[i]];
      i, rest := i + 1, rest - 1;
    }
    if rest > 0 && q[i] != 0 {
      return 0;
    }
    return 1;
  }
}
