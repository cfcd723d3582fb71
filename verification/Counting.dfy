/** Sizes of sets of numbers. */
module Counting {
  lemma {:induction false} CountRange(s: set<nat>, v: nat, k: nat)
    requires forall u :: u in s <==> v <= u < v + k
    ensures |s| == k
  {
    if k > 0 {
      CountRange(s - {v + k - 1}, v, k - 1);
    } else {
      assert s == {};
    }
  }

  lemma {:induction false} AtMostBelow(s: set<nat>, n: nat)
    requires forall i :: i in s ==> i < n
    ensures |s| <= n
  {
    if n == 0 {
      assert s == {};
    } else {
      AtMostBelow(s - {n - 1}, n - 1);
    }
  }

  lemma SubsetCount(a: set<nat>, b: set<nat>)
    requires a <= b
    ensures |a| <= |b|
  {
    assert b == a + (b - a);
  }

  function Elements(s: seq<nat>): set<nat> {
    set x | x in s
  }

  lemma ElementsNext(s: seq<nat>, x: nat)
    ensures Elements(s + [x]) == Elements(s) + {x}
  {
  }

  lemma {:induction false} ElementsAtMost(s: seq<nat>)
    ensures |Elements(s)| <= |s|
  {
    if s != [] {
      var n := |s| - 1;
      ElementsAtMost(s[..n]);
      ElementsNext(s[..n], s[n]);
      assert s == s[..n] + [s[n]];
    } else {
      assert Elements(s) == {};
    }
  }

  /** A sequence without repetitions has as many elements as places. */
  lemma {:induction false} CountDistinct(s: seq<nat>)
    requires forall j, k :: 0 <= j < k < |s| ==> s[j] != s[k]
    ensures |Elements(s)| == |s|
  {
    if s != [] {
      var n := |s| - 1;
      CountDistinct(s[..n]);
      ElementsNext(s[..n], s[n]);
      assert s == s[..n] + [s[n]];
      assert s[n] !in Elements(s[..n]);
    } else {
      assert Elements(s) == {};
    }
  }

  /** A map that never takes a value twice has as many values as keys. */
  lemma {:induction false} CountValues(m: map<nat, nat>)
    requires forall j, k :: j in m && k in m && j != k ==> m[j] != m[k]
    ensures |m.Values| == |m|
  {
    if m.Keys != {} {
      var k :| k in m;
      var rest := m - {k};
      CountValues(rest);
      assert m == rest[k := m[k]];
      assert m.Values == rest.Values + {m[k]};
    } else {
      assert m.Values == {};
    }
  }
}
