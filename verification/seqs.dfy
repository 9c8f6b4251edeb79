/** Facts about sequences shared by the permutation proofs. */
module Seqs {
  /** The first element of `a` occurs somewhere in a permutation `b` of `a`,
      and removing it from both leaves permutations of each other. */
  lemma MatchFirst<T>(a: seq<T>, b: seq<T>) returns (j: nat)
    requires |a| > 0 && multiset(a) == multiset(b)
    ensures j < |b| && b[j] == a[0]
    ensures multiset(a[1..]) == multiset(b[..j] + b[j + 1..])
  {
    assert a[0] in multiset(b) by {
      assert a[0] in multiset(a);
    }
    j :| 0 <= j < |b| && b[j] == a[0];
    MultisetCons(a);
    MultisetRemove(b, j);
    MultisetCancel(multiset(a[1..]), multiset(b[..j] + b[j + 1..]), a[0]);
  }

  /** The head and the tail together make up the whole sequence. */
  lemma MultisetCons<T>(a: seq<T>)
    requires |a| > 0
    ensures multiset(a) == multiset(a[1..]) + multiset{a[0]}
  {
    assert a == [a[0]] + a[1..];
  }

  /** Removing position `j` removes one copy of `b[j]`. */
  lemma MultisetRemove<T>(b: seq<T>, j: nat)
    requires j < |b|
    ensures multiset(b) == multiset(b[..j] + b[j + 1..]) + multiset{b[j]}
  {
    assert b == b[..j] + [b[j]] + b[j + 1..];
  }

  lemma MultisetCancel<T>(m: multiset<T>, n: multiset<T>, x: T)
    requires m + multiset{x} == n + multiset{x}
    ensures m == n
  {
    assert m == (m + multiset{x}) - multiset{x};
    assert n == (n + multiset{x}) - multiset{x};
  }

  lemma Assoc<T>(a: seq<T>, b: seq<T>, c: seq<T>)
    ensures (a + b) + c == a + (b + c)
  {
  }

  lemma SplitJoin<T>(s: seq<T>, e: nat)
    requires e <= |s|
    ensures s[..e] + s[e..] == s
  {
  }
}
