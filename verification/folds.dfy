/**
 Additive reductions over sequences. The harness drains channels whose order
 depends on goroutine scheduling; the permutation lemma is what lets a
 sequential fold over one arrival order stand for every other order.
 */
module Folds {

  /** The sum of `f` over the elements of `s`. */
  function SumBy<T>(s: seq<T>, f: T -> nat): nat
  {
    if s == [] then 0 else SumBy(s[..|s| - 1], f) + f(s[|s| - 1])
  }

  function Identity(x: nat): nat
  {
    x
  }

  function Sum(s: seq<nat>): nat
  {
    SumBy(s, Identity)
  }

  lemma {:induction false} SumByConcat<T>(a: seq<T>, b: seq<T>, f: T -> nat)
    ensures SumBy(a + b, f) == SumBy(a, f) + SumBy(b, f)
    decreases |b|
  {
    if b != [] {
      assert (a + b)[..|a + b| - 1] == a + b[..|b| - 1];
      SumByConcat(a, b[..|b| - 1], f);
    } else {
      assert a + b == a;
    }
  }

  lemma SumBySingleton<T>(x: T, f: T -> nat)
    ensures SumBy([x], f) == f(x)
  {
    assert [x][..0] == [];
  }

  /** The sum does not depend on the order of the elements. */
  lemma {:induction false} SumByPermutation<T>(a: seq<T>, b: seq<T>, f: T -> nat)
    requires multiset(a) == multiset(b)
    ensures SumBy(a, f) == SumBy(b, f)
    decreases |a|
  {
    if a != [] {
      var x := a[|a| - 1];
      var a' := a[..|a| - 1];
      SplitLast(a);
      assert multiset(a') == multiset(a) - multiset{x};
      assert x in multiset(b);
      var i :| 0 <= i < |b| && b[i] == x;
      MultisetWithout(b, i);
      SumByPermutation(a', b[..i] + b[i + 1..], f);
      SumByWithout(b, i, f);
      assert SumBy(a, f) == SumBy(a', f) + f(x);
    } else {
      assert |multiset(b)| == 0;
    }
  }

  /** Taking out the element at `i` takes one copy of it out of the multiset. */
  lemma MultisetWithout<T>(s: seq<T>, i: nat)
    requires i < |s|
    ensures multiset(s[..i] + s[i + 1..]) == multiset(s) - multiset{s[i]}
  {
    SplitAround(s, i);
  }

  lemma AppendAssociative<T>(a: seq<T>, b: seq<T>, c: seq<T>)
    ensures a + b + c == a + (b + c)
  {
    assert forall k | 0 <= k < |a| + |b| + |c| :: (a + b + c)[k] == (a + (b + c))[k];
  }

  /** A non-empty sequence is its prefix followed by its last element. */
  lemma SplitLast<T>(s: seq<T>)
    requires |s| > 0
    ensures s == s[..|s| - 1] + [s[|s| - 1]]
  {
    var t := s[..|s| - 1] + [s[|s| - 1]];
    assert forall k | 0 <= k < |s| :: t[k] == s[k];
  }

  /** A sequence is its prefix before `i`, its element at `i` and its suffix after `i`. */
  lemma SplitAround<T>(s: seq<T>, i: nat)
    requires i < |s|
    ensures s == s[..i] + [s[i]] + s[i + 1..]
  {
    var t := s[..i] + [s[i]] + s[i + 1..];
    assert |t| == |s|;
    assert forall k | 0 <= k < |s| :: t[k] == s[k];
  }

  /** Taking out the element at `i` takes its weight out of the sum. */
  lemma SumByWithout<T>(s: seq<T>, i: nat, f: T -> nat)
    requires i < |s|
    ensures SumBy(s, f) == SumBy(s[..i] + s[i + 1..], f) + f(s[i])
  {
    SplitAround(s, i);
    SumByMiddle(s[..i], s[i], s[i + 1..], f);
  }

  lemma SumByMiddle<T>(p: seq<T>, x: T, q: seq<T>, f: T -> nat)
    ensures SumBy(p + [x] + q, f) == SumBy(p + q, f) + f(x)
  {
    SumByConcat(p + [x], q, f);
    SumByConcat(p, [x], f);
    SumByConcat(p, q, f);
    SumBySingleton(x, f);
  }

  function Count<T(==)>(s: seq<T>, x: T): nat
  {
    if s == [] then 0 else Count(s[..|s| - 1], x) + (if s[|s| - 1] == x then 1 else 0)
  }

  lemma {:induction false} CountConcat<T>(a: seq<T>, b: seq<T>, x: T)
    ensures Count(a + b, x) == Count(a, x) + Count(b, x)
    decreases |b|
  {
    if b != [] {
      assert (a + b)[..|a + b| - 1] == a + b[..|b| - 1];
      CountConcat(a, b[..|b| - 1], x);
    } else {
      assert a + b == a;
    }
  }

  lemma {:induction false} CountPositive<T>(s: seq<T>, k: nat)
    requires k < |s|
    ensures Count(s, s[k]) > 0
  {
    if k < |s| - 1 {
      assert s[..|s| - 1][k] == s[k];
      CountPositive(s[..|s| - 1], k);
    }
  }

  /** `n` copies of `x`. */
  function Repeat<T>(x: T, n: nat): (s: seq<T>)
    ensures |s| == n
    ensures forall i | 0 <= i < n :: s[i] == x
  {
    if n == 0 then [] else Repeat(x, n - 1) + [x]
  }

  lemma {:induction false} CountRepeat<T>(x: T, n: nat, y: T)
    ensures Count(Repeat(x, n), y) == if x == y then n else 0
  {
    if n > 0 {
      assert Repeat(x, n)[..n - 1] == Repeat(x, n - 1);
      CountRepeat(x, n - 1, y);
    }
  }

  lemma CountAppendRepeat<T>(a: seq<T>, x: T, n: nat, y: T)
    ensures Count(a + Repeat(x, n), y) == Count(a, y) + if x == y then n else 0
  {
    CountConcat(a, Repeat(x, n), y);
    CountRepeat(x, n, y);
  }

  /** The numbers `0, 1, ..., n - 1`. */
  function Range(n: nat): (s: seq<nat>)
    ensures |s| == n
    ensures forall i | 0 <= i < n :: s[i] == i
  {
    seq(n, i requires 0 <= i => i)
  }

  lemma {:induction false} RangeCount(n: nat, w: nat)
    ensures Count(Range(n), w) == if w < n then 1 else 0
  {
    if n > 0 {
      assert Range(n)[..n - 1] == Range(n - 1);
      RangeCount(n - 1, w);
    }
  }

  lemma {:induction false} SumRepeat(x: nat, n: nat)
    ensures Sum(Repeat<nat>(x, n)) == n * x
  {
    if n > 0 {
      assert Repeat<nat>(x, n)[..n - 1] == Repeat<nat>(x, n - 1);
      SumRepeat(x, n - 1);
    }
  }
}
