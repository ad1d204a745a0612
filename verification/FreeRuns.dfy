/** Searching, carving and growing a canonical extent sequence: what the frame allocator and
    the address arena share. */
module FreeRuns {
  import opened Bits
  import opened Extents

  /** Frame and page numbers stay below this, so that their addresses fit 64 bits. */
  const FRAME_LIMIT := 0x10_0000_0000_0000

  ghost predicate Bounded(s: seq<Extent>) {
    forall i | 0 <= i < |s| :: End(s[i]) <= FRAME_LIMIT
  }

  ghost predicate TableOk(s: seq<Extent>) {
    Canonical(s) && Bounded(s)
  }

  /** The units of [lo, hi), none of them covered before, were added. */
  ghost predicate Grew(s: seq<Extent>, s': seq<Extent>, lo: int, hi: int) {
    && (forall f :: Covers(s', f) <==> Covers(s, f) || lo <= f < hi)
    && Size(s') == Size(s) + hi - lo
  }

  /** The free extents without the run [a, a + n). */
  ghost predicate TookRun(s: seq<Extent>, s': seq<Extent>, a: nat, n: nat) {
    && Canonical(s') && Size(s') == Size(s) - n
    && (forall f | a <= f < a + n :: Covers(s, f))
    && (forall f :: Covers(s', f) <==> Covers(s, f) && !(a <= f < a + n))
  }

  /** Taking an extent out and freeing what is left of it on both sides of the run. */
  lemma CarveIs(s: seq<Extent>, i: nat, a: nat, n: nat, s1: seq<Extent>, s2: seq<Extent>)
    requires Canonical(s) && i < |s| && n > 0 && s[i].start <= a && a + n <= End(s[i])
    requires Canonical(s1) && Canonical(s2)
    requires Grew(RemovedAt(s, i), s1, a + n, End(s[i])) && Grew(s1, s2, s[i].start, a)
    ensures TookRun(s, s2, a, n)
  {
    RemovedIs(s, i);
    forall f | In(s[i], f) ensures Covers(s, f) { }
  }

  lemma StartsAscend(s: seq<Extent>)
    requires Canonical(s)
    ensures forall i, j | 0 <= i < j < |s| :: s[i].start <= s[j].start
  {
    forall i, j | 0 <= i < j < |s| ensures s[i].start <= s[j].start { assert Gap(s[i], s[j]); }
  }

  /** Merging and inserting do not extend past the covered units. */
  lemma EndsBounded(s: seq<Extent>, e: Extent, r: seq<Extent>)
    requires Canonical(r) && End(e) <= FRAME_LIMIT && Bounded(s)
    requires forall f :: Covers(r, f) ==> Covers(s, f) || In(e, f)
    ensures Bounded(r)
  {
    forall i | 0 <= i < |r| ensures End(r[i]) <= FRAME_LIMIT {
      assert In(r[i], End(r[i]) - 1);
      assert Covers(r, End(r[i]) - 1);
    }
  }

  /** The test both allocators make on one extent. */
  predicate Fits(e: Extent, n: nat, align: nat)
    requires 0 < align <= TOP
  {
    AlignUp(e.start, align) >= e.start && e.count >= AlignUp(e.start, align) - e.start + n
  }

  /** Some unit of the run is not free. */
  ghost predicate Interrupted(s: seq<Extent>, a: nat, n: nat) {
    exists f :: a <= f < a + n && !Covers(s, f)
  }

  ghost predicate NoAlignedRunIn(s: seq<Extent>, n: nat, align: nat)
    requires align > 0
  {
    forall a: nat | a % align == 0 :: Interrupted(s, a, n)
  }

  lemma AlignRoom(start: nat, align: nat)
    requires start < FRAME_LIMIT && IsPow2(align)
    ensures 0 < align && start + align <= TOP
  {
    var k :| 0 <= k < WIDTH && align == Pow2(k);
    Pow2Below(k, 63);
    TopIs();
  }

  /** An extent too small for the least aligned start holds no aligned run at all. */
  lemma NoFitNoRun(e: Extent, n: nat, align: nat, a: nat)
    requires IsPow2(align) && e.start + align <= TOP && !Fits(e, n, align)
    requires a % align == 0 && e.start <= a
    ensures a + n > End(e)
  {
    AlignUpIs(e.start, align);
    AlignUpIsLeast(e.start, align, a);
  }

  /** If no extent fits, no aligned run of n free units exists anywhere. */
  lemma NoAlignedRun(s: seq<Extent>, n: nat, align: nat, a: nat)
    requires Canonical(s) && IsPow2(align) && n > 0 && a % align == 0
    requires forall i | 0 <= i < |s| :: s[i].start + align <= TOP && !Fits(s[i], n, align)
    ensures exists f :: a <= f < a + n && !Covers(s, f)
  {
    if forall f | a <= f < a + n :: Covers(s, f) {
      var i := RunInOne(s, a, n);
      NoFitNoRun(s[i], n, align, a);
    }
  }

  lemma RoomToAlign(s: seq<Extent>, align: nat)
    requires TableOk(s) && IsPow2(align)
    ensures 0 < align <= TOP && forall k | 0 <= k < |s| :: s[k].start + align <= TOP
  {
    forall k | 0 <= k < |s| ensures s[k].start + align <= TOP {
      assert End(s[k]) <= FRAME_LIMIT && s[k].count > 0;
      AlignRoom(s[k].start, align);
    }
    AlignRoom(0, align);
  }

  lemma NoneFit(s: seq<Extent>, n: nat, align: nat)
    requires TableOk(s) && n > 0 && IsPow2(align) && 0 < align <= TOP
    requires forall k | 0 <= k < |s| :: !Fits(s[k], n, align)
    ensures NoAlignedRunIn(s, n, align)
  {
    RoomToAlign(s, align);
    forall b: nat | b % align == 0 ensures Interrupted(s, b, n) {
      NoAlignedRun(s, n, align, b);
    }
  }

  /** The removal loop of both allocators. */
  method RemoveExtent(a: array<Extent>, n: nat, i: nat)
    requires i < n <= a.Length
    modifies a
    ensures a[..n - 1] == RemovedAt(old(a[..n]), i)
  {
    ghost var s := a[..n];
    for j := i to n - 1
      invariant forall x | 0 <= x < i :: a[x] == s[x]
      invariant forall x | i < x <= j :: a[x - 1] == s[x]
      invariant forall x | j <= x < n :: a[x] == s[x]
    {
      a[j] := a[j + 1];
    }
  }

  /** The shift that makes room for an extent. */
  method InsertAt(a: array<Extent>, n: nat, idx: nat, e: Extent)
    requires idx <= n < a.Length
    modifies a
    ensures a[..n + 1] == InsertedAt(old(a[..n]), idx, e)
  {
    ghost var s := a[..n];
    var i := n;
    while i > idx
      invariant idx <= i <= n
      invariant forall k | 0 <= k < i :: a[k] == s[k]
      invariant forall k | i < k <= n :: a[k] == s[k - 1]
    {
      a[i] := a[i - 1];
      i := i - 1;
    }
    a[idx] := e;
  }
}
