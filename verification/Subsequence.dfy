/** Order-preserving selection from a sequence. */
module Subsequence {

  /** `a` is obtained from `b` by leaving elements out, the rest in the same order. */
  predicate IsSubsequence<E(==)>(a: seq<E>, b: seq<E>)
    decreases |b|
  {
    a == [] ||
    (b != [] &&
     (IsSubsequence(a, b[..|b| - 1]) ||
      (a[|a| - 1] == b[|b| - 1] && IsSubsequence(a[..|a| - 1], b[..|b| - 1]))))
  }

  lemma {:induction false} Extend<E>(a: seq<E>, b: seq<E>, c: seq<E>)
    requires IsSubsequence(a, b)
    ensures IsSubsequence(a + c, b + c)
    decreases |c|
  {
    if c == [] {
      assert a + c == a && b + c == b;
    } else {
      var n := |c| - 1;
      Extend(a, b, c[..n]);
      assert (a + c)[..|a| + n] == a + c[..n];
      assert (b + c)[..|b| + n] == b + c[..n];
    }
  }

  lemma {:induction false} DropLast<E>(a: seq<E>, b: seq<E>)
    requires IsSubsequence(a, b) && a != []
    ensures IsSubsequence(a[..|a| - 1], b)
    decreases |b|
  {
    var b' := b[..|b| - 1];
    if IsSubsequence(a, b') {
      DropLast(a, b');
    }
  }

  lemma {:induction false} Truncate<E>(a: seq<E>, k: nat, b: seq<E>)
    requires IsSubsequence(a, b) && k <= |a|
    ensures IsSubsequence(a[..k], b)
    decreases |a|
  {
    if k < |a| {
      DropLast(a, b);
      Truncate(a[..|a| - 1], k, b);
      assert a[..|a| - 1][..k] == a[..k];
    } else {
      assert a[..k] == a;
    }
  }

  /** Two elements of a subsequence stand in the same order in the whole. */
  lemma {:induction false} SameOrder<E>(a: seq<E>, b: seq<E>, p: nat, q: nat) returns (u: nat, v: nat)
    requires IsSubsequence(a, b) && p < q < |a|
    ensures u < v < |b| && b[u] == a[p] && b[v] == a[q]
    decreases |b|
  {
    var b' := b[..|b| - 1];
    if IsSubsequence(a, b') {
      u, v := SameOrder(a, b', p, q);
    } else if q < |a| - 1 {
      u, v := SameOrder(a[..|a| - 1], b', p, q);
    } else {
      u := Find(a[..|a| - 1], b', p);
      v := |b| - 1;
    }
  }

  lemma {:induction false} Find<E>(a: seq<E>, b: seq<E>, p: nat) returns (u: nat)
    requires IsSubsequence(a, b) && p < |a|
    ensures u < |b| && b[u] == a[p]
    decreases |b|
  {
    var b' := b[..|b| - 1];
    if IsSubsequence(a, b') {
      u := Find(a, b', p);
    } else if p < |a| - 1 {
      u := Find(a[..|a| - 1], b', p);
    } else {
      u := |b| - 1;
    }
  }
}
