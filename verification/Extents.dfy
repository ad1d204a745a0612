/** Sequences of extents (runs of consecutive units, such as page frames): what they cover,
    their canonical form, and the pure counterparts of the edits that the physical memory
    manager (rust_core/src/memory/pmm.rs) and the address arena
    (archs/memory/kheap_slab.cpp) make in their arrays. */
module Extents {

  datatype Extent = Extent(start: nat, count: nat)

  function End(e: Extent): nat { e.start + e.count }

  predicate In(e: Extent, f: int) {
    e.start <= f < End(e)
  }

  predicate Covers(s: seq<Extent>, f: int) {
    exists i :: 0 <= i < |s| && In(s[i], f)
  }

  /** a ends before b starts, perhaps right before; and with at least one unit between. */
  predicate Meets(a: Extent, b: Extent) { End(a) <= b.start }
  predicate Gap(a: Extent, b: Extent) { End(a) < b.start }

  /** Ascending and disjoint, possibly adjacent. */
  ghost predicate Ascending(s: seq<Extent>) {
    && (forall i | 0 <= i < |s| :: s[i].count > 0)
    && (forall i, j | 0 <= i < j < |s| :: Meets(s[i], s[j]))
  }

  /** Ascending, disjoint and maximally coalesced. */
  ghost predicate Canonical(s: seq<Extent>) {
    && (forall i | 0 <= i < |s| :: s[i].count > 0)
    && (forall i, j | 0 <= i < j < |s| :: Gap(s[i], s[j]))
  }

  /** How many units are covered. */
  function Size(s: seq<Extent>): nat { SizeTo(s, |s|) }

  /** How many units the first n extents cover. */
  function SizeTo(s: seq<Extent>, n: nat): nat
    requires n <= |s|
  {
    if n == 0 then 0 else SizeTo(s, n - 1) + s[n - 1].count
  }

  // ---------------------------------------------------------------- theory

  lemma {:induction false} SizeToSame(s: seq<Extent>, t: seq<Extent>, n: nat)
    requires n <= |s| && n <= |t| && forall i | 0 <= i < n :: s[i] == t[i]
    ensures SizeTo(s, n) == SizeTo(t, n)
  {
    if n > 0 { SizeToSame(s, t, n - 1); }
  }

  /** t is s with one extent more, at position i. */
  predicate OneMore(s: seq<Extent>, t: seq<Extent>, i: nat) {
    && i <= |s| && |t| == |s| + 1
    && (forall k | 0 <= k < i :: t[k] == s[k]) && (forall k | i <= k < |s| :: t[k + 1] == s[k])
  }

  lemma {:induction false} SizeOneMore(s: seq<Extent>, t: seq<Extent>, i: nat, n: nat)
    requires OneMore(s, t, i) && i <= n <= |s|
    ensures SizeTo(t, n + 1) == SizeTo(s, n) + t[i].count
  {
    if n == i {
      SizeToSame(s, t, n);
    } else {
      SizeOneMore(s, t, i, n - 1);
      assert t[n] == s[n - 1];
    }
  }

  lemma ApartAt(s: seq<Extent>, i: nat, j: nat)
    requires Canonical(s) && i < |s| && j < |s|
    ensures (i < j ==> Gap(s[i], s[j])) && (j < i ==> Gap(s[j], s[i]))
  {
  }

  /** A run of covered units lies inside one extent of a canonical sequence. */
  lemma {:induction false} RunInOne(s: seq<Extent>, a: nat, n: nat) returns (i: nat)
    requires Canonical(s) && n > 0
    requires forall f | a <= f < a + n :: Covers(s, f)
    ensures i < |s| && s[i].start <= a && a + n <= End(s[i])
    decreases n
  {
    if n == 1 {
      assert Covers(s, a);
      i :| 0 <= i < |s| && In(s[i], a);
    } else {
      i := RunInOne(s, a, n - 1);
      assert Covers(s, a + n - 1);
      var j :| 0 <= j < |s| && In(s[j], a + n - 1);
      ApartAt(s, i, j);
    }
  }

  /** The first extent of a canonical sequence starts at the lowest covered unit and ends at
      the first gap after it. */
  lemma FirstExtent(s: seq<Extent>)
    requires Canonical(s) && s != []
    ensures forall f | f < s[0].start :: !Covers(s, f)
    ensures !Covers(s, End(s[0])) && forall f | In(s[0], f) :: Covers(s, f)
  {
    forall f | f < s[0].start ensures !Covers(s, f) {
      forall i | 0 <= i < |s| ensures !In(s[i], f) { assert i > 0 ==> Gap(s[0], s[i]); }
    }
    forall i | 0 <= i < |s| ensures !In(s[i], End(s[0])) { assert i > 0 ==> Gap(s[0], s[i]); }
  }

  lemma CoversTail(s: seq<Extent>, f: int)
    requires Canonical(s) && s != []
    ensures Covers(s[1..], f) <==> Covers(s, f) && !In(s[0], f)
  {
    if Covers(s[1..], f) {
      var i :| 0 <= i < |s| - 1 && In(s[1..][i], f);
      assert In(s[i + 1], f) && Gap(s[0], s[i + 1]);
    }
    if Covers(s, f) && !In(s[0], f) {
      var i :| 0 <= i < |s| && In(s[i], f);
      assert In(s[1..][i - 1], f);
    }
  }

  lemma FirstCovered(s: seq<Extent>)
    requires Canonical(s)
    ensures s != [] ==> Covers(s, s[0].start)
  {
    if s != [] { assert In(s[0], s[0].start); }
  }

  lemma FirstEnds(s: seq<Extent>, t: seq<Extent>)
    requires Canonical(s) && Canonical(t) && s != [] && t != [] && s[0].start == t[0].start
    requires forall f: nat :: Covers(s, f) <==> Covers(t, f)
    ensures End(t[0]) <= End(s[0])
  {
    FirstExtent(s);
    FirstExtent(t);
    assert !Covers(t, End(s[0]));
    assert !In(t[0], End(s[0]));
  }

  /** The canonical sequence covering a given set of units is unique. */
  lemma {:induction false} CanonicalUnique(s: seq<Extent>, t: seq<Extent>)
    requires Canonical(s) && Canonical(t)
    requires forall f: nat :: Covers(s, f) <==> Covers(t, f)
    ensures s == t
    decreases |s|
  {
    if s == [] || t == [] {
      FirstCovered(s);
      FirstCovered(t);
    } else {
      FirstExtent(s);
      FirstExtent(t);
      assert Covers(s, s[0].start) && Covers(t, t[0].start);
      FirstEnds(s, t);
      FirstEnds(t, s);
      assert s[0] == t[0];
      forall f: nat ensures Covers(s[1..], f) <==> Covers(t[1..], f) {
        CoversTail(s, f);
        CoversTail(t, f);
      }
      CanonicalUnique(s[1..], t[1..]);
      assert s == [s[0]] + s[1..] && t == [t[0]] + t[1..];
    }
  }

  // ---------------------------------------------------------------- insertion and merging

  /** s with e inserted before position i. */
  function InsertedAt(s: seq<Extent>, i: nat, e: Extent): seq<Extent>
    requires i <= |s|
  {
    s[..i] + [e] + s[i..]
  }

  lemma InsertedCovers(s: seq<Extent>, i: nat, e: Extent, f: int)
    requires i <= |s|
    ensures Covers(InsertedAt(s, i, e), f) <==> Covers(s, f) || In(e, f)
  {
    var t := InsertedAt(s, i, e);
    if Covers(s, f) {
      var k :| 0 <= k < |s| && In(s[k], f);
      assert In(t[if k < i then k else k + 1], f);
    }
    if In(e, f) { assert In(t[i], f); }
    if Covers(t, f) {
      var k :| 0 <= k < |t| && In(t[k], f);
      assert k == i || In(s[if k < i then k else k - 1], f);
    }
  }

  /** i is where an extent starting at `start` belongs. */
  predicate IsSlot(s: seq<Extent>, i: nat, start: nat) {
    && i <= |s|
    && (forall k | 0 <= k < i :: s[k].start <= start)
    && (forall k | i <= k < |s| :: s[k].start > start)
  }

  lemma InsertedAscending(s: seq<Extent>, i: nat, e: Extent)
    requires Canonical(s) && IsSlot(s, i, e.start) && e.count > 0
    requires forall f | In(e, f) :: !Covers(s, f)
    ensures Ascending(InsertedAt(s, i, e))
  {
    var t := InsertedAt(s, i, e);
    forall k | 0 <= k < |s| ensures k < i ==> End(s[k]) <= e.start
                            ensures k >= i ==> End(e) <= s[k].start {
      assert In(s[k], s[k].start) && Covers(s, s[k].start);
      if k < i && End(s[k]) > e.start { assert In(s[k], e.start) && In(e, e.start); }
      if k >= i && End(e) > s[k].start { assert In(e, s[k].start); }
    }
    forall a, b | 0 <= a < b < |t| ensures Meets(t[a], t[b]) {
      var a', b' := if a < i then a else a - 1, if b < i then b else b - 1;
      if a != i && b != i { assert t[a] == s[a'] && t[b] == s[b'] && Gap(s[a'], s[b']); }
    }
  }

  /** c with e appended, merged into the last extent when adjacent to it. */
  function Merged(c: seq<Extent>, e: Extent): seq<Extent> {
    if c != [] && End(c[|c| - 1]) == e.start then
      c[..|c| - 1] + [Extent(c[|c| - 1].start, c[|c| - 1].count + e.count)]
    else c + [e]
  }

  lemma CoversSnoc(p: seq<Extent>, e: Extent, f: int)
    ensures Covers(p + [e], f) <==> Covers(p, f) || In(e, f)
  {
    InsertedCovers(p, |p|, e, f);
    assert InsertedAt(p, |p|, e) == p + [e];
  }

  lemma MergedCovers(c: seq<Extent>, e: Extent, f: int)
    ensures Covers(Merged(c, e), f) <==> Covers(c, f) || In(e, f)
  {
    if c != [] && End(c[|c| - 1]) == e.start {
      var q, l := c[..|c| - 1], c[|c| - 1];
      assert c == q + [l];
      CoversSnoc(q, l, f);
      CoversSnoc(q, Extent(l.start, l.count + e.count), f);
    } else {
      CoversSnoc(c, e, f);
    }
  }

  lemma MergedSize(c: seq<Extent>, e: Extent)
    ensures Size(Merged(c, e)) == Size(c) + e.count
  {
    var r := Merged(c, e);
    if c != [] && End(c[|c| - 1]) == e.start {
      SizeToSame(r, c, |c| - 1);
    } else {
      SizeToSame(r, c, |c|);
    }
  }

  lemma SnocSize(s: seq<Extent>, e: Extent)
    ensures Size(s + [e]) == Size(s) + e.count
  {
    SizeToSame(s + [e], s, |s|);
  }

  lemma MergedShape(c: seq<Extent>, e: Extent)
    requires Canonical(c) && e.count > 0 && (c != [] ==> End(c[|c| - 1]) <= e.start)
    ensures var r := Merged(c, e); Canonical(r) && 0 < |r| <= |c| + 1 && End(r[|r| - 1]) == End(e)
  {
    var r := Merged(c, e);
    forall i, j | 0 <= i < j < |r| ensures Gap(r[i], r[j]) {
      if j < |c| { assert Gap(c[i], c[j]); }
      if j == |c| && i < |c| - 1 { assert Gap(c[i], c[|c| - 1]); }
    }
  }

  /** Merging adjacent neighbours among the first n extents, left to right. */
  function CoalescedTo(s: seq<Extent>, n: nat): seq<Extent>
    requires n <= |s|
  {
    if n == 0 then [] else Merged(CoalescedTo(s, n - 1), s[n - 1])
  }

  function Coalesced(s: seq<Extent>): seq<Extent> { CoalescedTo(s, |s|) }

  lemma CoalescedOne(s: seq<Extent>)
    requires s != []
    ensures CoalescedTo(s, 1) == [s[0]]
  {
    var n := 1;
    assert CoalescedTo(s, n - 1) == [];
    assert CoalescedTo(s, n) == Merged([], s[0]);
  }

  /** Merging an ascending sequence makes it canonical, */
  lemma {:induction false} CoalescedIs(s: seq<Extent>, n: nat)
    requires Ascending(s) && n <= |s|
    ensures Canonical(CoalescedTo(s, n)) && |CoalescedTo(s, n)| <= n
    ensures n > 0 ==> CoalescedTo(s, n) != [] && End(CoalescedTo(s, n)[|CoalescedTo(s, n)| - 1]) == End(s[n - 1])
  {
    if n > 0 {
      CoalescedIs(s, n - 1);
      if n > 1 { assert Meets(s[n - 2], s[n - 1]); }
      MergedShape(CoalescedTo(s, n - 1), s[n - 1]);
    }
  }

  /** keeps its size, */
  lemma {:induction false} CoalescedSize(s: seq<Extent>, n: nat)
    requires n <= |s|
    ensures Size(CoalescedTo(s, n)) == SizeTo(s, n)
  {
    if n > 0 {
      CoalescedSize(s, n - 1);
      MergedSize(CoalescedTo(s, n - 1), s[n - 1]);
    }
  }

  /** and keeps what it covers. */
  lemma {:induction false} CoalescedCovers(s: seq<Extent>, n: nat, f: int)
    requires n <= |s|
    ensures Covers(CoalescedTo(s, n), f) <==> Covers(s[..n], f)
  {
    if n > 0 {
      CoalescedCovers(s, n - 1, f);
      MergedCovers(CoalescedTo(s, n - 1), s[n - 1], f);
      CoversSnoc(s[..n - 1], s[n - 1], f);
      assert s[..n - 1] + [s[n - 1]] == s[..n];
    }
  }

  /** Inserting a run of uncovered units and merging. */
  function Freed(s: seq<Extent>, i: nat, e: Extent): seq<Extent>
    requires i <= |s|
  {
    Coalesced(InsertedAt(s, i, e))
  }

  /** The result is canonical, covers exactly e more, and grows by at most one extent. */
  lemma FreedIs(s: seq<Extent>, i: nat, e: Extent)
    requires Canonical(s) && IsSlot(s, i, e.start) && e.count > 0
    requires forall f | In(e, f) :: !Covers(s, f)
    ensures var r := Freed(s, i, e);
            && Canonical(r) && Size(r) == Size(s) + e.count && |r| <= |s| + 1
            && forall f :: Covers(r, f) <==> Covers(s, f) || In(e, f)
  {
    InsertedAscending(s, i, e);
    var t := InsertedAt(s, i, e);
    assert t[..|t|] == t;
    CoalescedIs(t, |t|);
    CoalescedSize(t, |t|);
    InsertedSize(s, i, e);
    forall f ensures Covers(Freed(s, i, e), f) <==> Covers(s, f) || In(e, f) {
      InsertedCovers(s, i, e, f);
      CoalescedCovers(t, |t|, f);
    }
  }

  lemma InsertedSize(s: seq<Extent>, i: nat, e: Extent)
    requires i <= |s|
    ensures Size(InsertedAt(s, i, e)) == Size(s) + e.count
  {
    SizeOneMore(s, InsertedAt(s, i, e), i, |s|);
  }

  // ---------------------------------------------------------------- removal

  function RemovedAt(s: seq<Extent>, i: nat): seq<Extent>
    requires i < |s|
  {
    s[..i] + s[i + 1..]
  }

  lemma RemovedSize(s: seq<Extent>, i: nat)
    requires i < |s|
    ensures Size(RemovedAt(s, i)) == Size(s) - s[i].count
  {
    SizeOneMore(RemovedAt(s, i), s, i, |s| - 1);
  }

  lemma RemovedCovers(s: seq<Extent>, i: nat, f: int)
    requires Canonical(s) && i < |s|
    ensures Covers(RemovedAt(s, i), f) <==> Covers(s, f) && !In(s[i], f)
  {
    var r := RemovedAt(s, i);
    if Covers(r, f) {
      var k :| 0 <= k < |r| && In(r[k], f);
      var k' := if k < i then k else k + 1;
      assert In(s[k'], f) && (if k < i then Gap(s[k], s[i]) else Gap(s[i], s[k']));
    }
    if Covers(s, f) && !In(s[i], f) {
      var k :| 0 <= k < |s| && In(s[k], f);
      assert In(r[if k < i then k else k - 1], f);
    }
  }

  /** Dropping an extent uncovers exactly its units. */
  lemma RemovedIs(s: seq<Extent>, i: nat)
    requires Canonical(s) && i < |s|
    ensures Canonical(RemovedAt(s, i)) && Size(RemovedAt(s, i)) == Size(s) - s[i].count
    ensures forall f :: Covers(RemovedAt(s, i), f) <==> Covers(s, f) && !In(s[i], f)
  {
    var r := RemovedAt(s, i);
    RemovedShape(s, i);
    RemovedSize(s, i);
    forall f ensures Covers(r, f) <==> Covers(s, f) && !In(s[i], f) {
      RemovedCovers(s, i, f);
    }
  }

  lemma RemovedShape(s: seq<Extent>, i: nat)
    requires Canonical(s) && i < |s|
    ensures Canonical(RemovedAt(s, i))
  {
    var r := RemovedAt(s, i);
    forall a, b | 0 <= a < b < |r| ensures Gap(r[a], r[b]) {
      assert Gap(s[if a < i then a else a + 1], s[if b < i then b else b + 1]);
    }
  }

  /** An empty sequence covers nothing; a canonical one that covers nothing is empty. */
  lemma SizeZero(s: seq<Extent>)
    requires Canonical(s)
    ensures s == [] <==> forall f: nat :: !Covers(s, f)
  {
    if s != [] { assert In(s[0], s[0].start); assert Covers(s, s[0].start); }
  }
}
