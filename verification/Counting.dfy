/** Cardinalities of runs, of distinct sequences and of disjoint unions. */
module Counting {

  predicate Between(a: nat, f: int, n: nat) { a <= f < a + n }

  ghost function RunSet(a: nat, n: nat): set<int> { set f: int | a <= f < a + n && Between(a, f, n) }

  ghost function Elements(s: seq<nat>): set<int> { set f: int | f in s }

  lemma UnionCard<T(!new)>(a: set<T>, b: set<T>, c: set<T>)
    requires forall f :: f in c <==> f in a || f in b
    requires forall f :: f in a ==> f !in b
    ensures |c| == |a| + |b|
  {
    assert c == a + b && a !! b;
  }

  lemma {:induction false} RunCard(a: nat, n: nat)
    ensures |RunSet(a, n)| == n
  {
    if n > 0 {
      RunCard(a, n - 1);
      assert RunSet(a, n) == RunSet(a, n - 1) + {a + n - 1};
    } else {
      assert RunSet(a, n) == {};
    }
  }

  lemma {:induction false} DistinctCard(s: seq<nat>)
    requires forall i, j | 0 <= i < j < |s| :: s[i] != s[j]
    ensures |Elements(s)| == |s|
  {
    if s == [] {
      assert Elements(s) == {};
    } else {
      var p, l := s[..|s| - 1], s[|s| - 1];
      DistinctCard(p);
      assert s == p + [l] && l !in Elements(p);
      assert Elements(s) == Elements(p) + {l};
    }
  }

  /** n distinct numbers below n are all the numbers below n. */
  lemma AllBelow(s: seq<nat>, k: nat)
    requires (forall i, j | 0 <= i < j < |s| :: s[i] != s[j]) && (forall i | 0 <= i < |s| :: s[i] < |s|) && k < |s|
    ensures k in s
  {
    DistinctCard(s);
    RunCard(0, |s|);
    SubsetAll(Elements(s), RunSet(0, |s|));
    assert k in RunSet(0, |s|);
  }

  lemma SubsetAll<T>(a: set<T>, b: set<T>)
    requires a <= b && |a| == |b|
    ensures a == b
  {
    assert b == a + (b - a);
    assert |b| == |a| + |b - a|;
  }

  // ---------------------------------------------------------------- elements that satisfy a test

  function Num<T>(xs: seq<T>, f: T -> bool): nat {
    if xs == [] then 0 else Num(xs[..|xs| - 1], f) + if f(xs[|xs| - 1]) then 1 else 0
  }

  lemma {:induction false} NumUpdate<T>(xs: seq<T>, i: nat, x: T, f: T -> bool)
    requires i < |xs|
    ensures Num(xs[i := x], f) == Num(xs, f) - (if f(xs[i]) then 1 else 0) + (if f(x) then 1 else 0)
  {
    var p := xs[..|xs| - 1];
    if i == |xs| - 1 {
      assert xs[i := x][..|xs| - 1] == p;
    } else {
      assert xs[i := x][..|xs| - 1] == p[i := x];
      NumUpdate(p, i, x, f);
    }
  }

  lemma {:induction false} NumPositive<T>(xs: seq<T>, i: nat, f: T -> bool)
    requires i < |xs| && f(xs[i])
    ensures Num(xs, f) > 0
  {
    if i < |xs| - 1 { NumPositive(xs[..|xs| - 1], i, f); }
  }

  lemma {:induction false} NumNone<T>(xs: seq<T>, f: T -> bool)
    requires forall i | 0 <= i < |xs| :: !f(xs[i])
    ensures Num(xs, f) == 0
  {
    if xs != [] { NumNone(xs[..|xs| - 1], f); }
  }

  lemma {:induction false} NumConcat<T>(xs: seq<T>, ys: seq<T>, f: T -> bool)
    ensures Num(xs + ys, f) == Num(xs, f) + Num(ys, f)
  {
    if ys == [] {
      assert xs + ys == xs;
    } else {
      assert (xs + ys)[..|xs + ys| - 1] == xs + ys[..|ys| - 1];
      NumConcat(xs, ys[..|ys| - 1], f);
    }
  }

  /** If f holds of ys only where g holds of xs, and once g holds where f does not. */
  lemma {:induction false} NumFewer<T, U>(xs: seq<T>, f: T -> bool, ys: seq<U>, g: U -> bool, i: nat)
    requires |xs| == |ys| && forall k | 0 <= k < |xs| :: f(xs[k]) ==> g(ys[k])
    ensures Num(xs, f) <= Num(ys, g)
    ensures i < |xs| && !f(xs[i]) && g(ys[i]) ==> Num(xs, f) < Num(ys, g)
  {
    if xs != [] { NumFewer(xs[..|xs| - 1], f, ys[..|ys| - 1], g, i); }
  }
}
