/** The extent array of the physical memory manager, rust_core/src/memory/pmm.rs: freeing,
    reserving and first-fit allocation of runs of page frames. */
module PmmExtents {
  import opened Bits
  import opened Common
  import opened Extents
  import opened FreeRuns

  const MAX_NUMA_NODES := 8
  const MAX_CPUS := 32
  const MAGAZINE_SIZE := 32
  const MAX_EXTENTS := 1024
  const REF_FREE := 0
  const REF_RESERVED := 255

  datatype NumaNode = NumaNode(active: bool, startFrame: nat, endFrame: nat)

  // ---------------------------------------------------------------- the extent array

  /** The linear search of free_region_internal for the slot of a new extent. */
  method FindSlot(a: array<Extent>, n: nat, start: nat) returns (i: nat)
    requires n <= a.Length && forall i, j | 0 <= i < j < n :: a[..n][i].start <= a[..n][j].start
    ensures IsSlot(a[..n], i, start)
  {
    ghost var s := a[..n];
    i := 0;
    while i < n
      invariant i <= n && forall x | 0 <= x < i :: s[x].start <= start
    {
      if a[i].start > start {
        assert s[i].start > start;
        return;
      }
      i := i + 1;
    }
  }

  /** One step of the merging half of free_region_internal. */
  method MergeStep(a: array<Extent>, w: nat, r: nat) returns (w': nat)
    requires w < r < a.Length
    modifies a
    ensures w' <= r && a[..w' + 1] == Merged(old(a[..w + 1]), old(a[r]))
    ensures forall x | r < x < a.Length :: a[x] == old(a[x])
  {
    if End(a[w]) == a[r].start {
      a[w] := Extent(a[w].start, a[w].count + a[r].count);
      w' := w;
    } else {
      w' := w + 1;
      a[w'] := a[r];
    }
  }

  /** The merging half of free_region_internal, in place. */
  method CompactExtents(a: array<Extent>, n: nat) returns (m: nat)
    requires n <= a.Length
    modifies a
    ensures m <= n && a[..m] == Coalesced(old(a[..n]))
  {
    if n == 0 {
      return 0;
    }
    ghost var s := a[..n];
    var w: nat := 0;
    ghost var c := a[..1];
    CoalescedOne(s);
    for r := 1 to n
      invariant w < r && a[..w + 1] == c == CoalescedTo(s, r)
      invariant forall x | r <= x < n :: a[x] == s[x]
    {
      w := MergeStep(a, w, r);
      c := Merged(c, s[r]);
    }
    m := w + 1;
  }

  // ---------------------------------------------------------------- contiguous allocation

  predicate InNode(node: Option<NumaNode>, a: nat, n: nat) {
    node.None? || (node.value.active && a >= node.value.startFrame && a + n <= node.value.endFrame)
  }

  /** free_region_internal on the array: insert, then merge. */
  method FreeInto(a: array<Extent>, n: nat, e: Extent) returns (m: nat, ghost i: nat)
    requires n < a.Length && forall i, j | 0 <= i < j < n :: a[..n][i].start <= a[..n][j].start
    modifies a
    ensures IsSlot(old(a[..n]), i, e.start) && m <= n + 1 && a[..m] == Freed(old(a[..n]), i, e)
  {
    var slot := FindSlot(a, n, e.start);
    InsertAt(a, n, slot, e);
    m := CompactExtents(a, n + 1);
    i := slot;
  }

  /** alloc_contiguous_internal's test of one extent. */
  method TryFit(e: Extent, n: nat, align: nat, node: Option<NumaNode>) returns (ok: bool, a: nat)
    requires IsPow2(align) && 0 < align <= TOP && e.start + align <= TOP
    ensures ok ==> a % align == 0 && e.start <= a && a + n <= End(e) && InNode(node, a, n)
    ensures ok && align == 1 ==> a == e.start
    ensures !ok && node.None? ==> !Fits(e, n, align)
  {
    AlignUpIs(e.start, align);
    a := AlignUp(e.start, align);
    ok := a >= e.start && InNode(node, a, n) && e.count >= a - e.start + n;
  }

  /** The sorted array of free extents in PmmState. */
  class ExtentTable {
    const extents: array<Extent>
    var count: nat

    ghost predicate Valid()
      reads this, extents
    {
      extents.Length == MAX_EXTENTS && count <= MAX_EXTENTS && TableOk(extents[..count])
    }

    ghost function Free(): seq<Extent>
      requires count <= extents.Length
      reads this, extents
    {
      extents[..count]
    }

    constructor ()
      ensures Valid() && Free() == [] && fresh(extents)
    {
      extents := new Extent[MAX_EXTENTS];
      count := 0;
    }

    /** free_region_internal: after freeing a run of frames that were not free, exactly those
        are free in addition, and the array is again sorted, disjoint and coalesced. A full
        array stops the kernel, even if the run would merge. */
    method FreeRegion(start: nat, n: nat) returns (panics: bool)
      requires Valid() && start + n <= FRAME_LIMIT
      requires forall f | start <= f < start + n :: !Covers(Free(), f)
      modifies this, extents
      ensures panics <==> n > 0 && old(count) == MAX_EXTENTS
      ensures Valid() && count <= old(count) + 1 && (!panics ==> Grew(old(Free()), Free(), start, start + n))
    {
      panics := false;
      if n == 0 {
        return;
      }
      if count >= MAX_EXTENTS {
        return true;
      }
      ghost var s := Free();
      StartsAscend(s);
      ghost var i;
      count, i := FreeInto(extents, count, Extent(start, n));
      FreedIs(s, i, Extent(start, n));
      EndsBounded(s, Extent(start, n), Freed(s, i, Extent(start, n)));
      assert TableOk(Free());
    }

    method DropExtent(i: nat)
      requires Valid() && i < count
      modifies this`count, extents
      ensures Valid() && count == old(count) - 1 && Free() == RemovedAt(old(Free()), i)
    {
      ghost var s := Free();
      RemovedIs(s, i);
      RemoveExtent(extents, count, i);
      count := count - 1;
      assert Free() == RemovedAt(s, i) && Bounded(Free());
    }

    /** The stores of alloc_contiguous_internal once extent i was found to hold the run. Only
        with a full array, and for a run out of the middle, does this stop the kernel. */
    method Carve(i: nat, a: nat, n: nat) returns (panics: bool)
      requires Valid() && i < count && n > 0 && extents[i].start <= a && a + n <= End(extents[i])
      modifies this, extents
      ensures panics ==> old(count) == MAX_EXTENTS && old(extents[i].start < a && a + n < End(extents[i]))
      ensures Valid() && (!panics ==> TookRun(old(Free()), Free(), a, n))
      ensures count <= old(count) + if a > old(extents[i].start) then 1 else 0
    {
      panics := false;
      ghost var s := Free();
      var e := extents[i];
      assert e == s[i];
      RemovedIs(s, i);
      DropExtent(i);
      if End(e) > a + n {
        panics := FreeRegion(a + n, End(e) - (a + n));
      }
      ghost var s1 := Free();
      if a > e.start {
        panics := FreeRegion(e.start, a - e.start);
        if panics {
          return;
        }
      }
      CarveIs(s, i, a, n, s1, Free());
    }

    /** The search of alloc_contiguous_internal: the first extent whose least aligned start
        leaves room for the run, inside the node if one is given. */
    method FindFit(n: nat, align: nat, node: Option<NumaNode>) returns (i: nat, a: nat)
      requires Valid() && n > 0 && IsPow2(align)
      ensures i <= count
      ensures i < count ==> a % align == 0 && extents[i].start <= a && a + n <= End(extents[i]) && InNode(node, a, n)
      ensures i < count && align == 1 ==> a == extents[i].start
      ensures i == count && node.None? ==> NoAlignedRunIn(Free(), n, align)
    {
      ghost var s := Free();
      RoomToAlign(s, align);
      i, a := 0, 0;
      while i < count
        invariant i <= count
        invariant node.None? ==> forall k | 0 <= k < i :: !Fits(s[k], n, align)
      {
        var ext := extents[i];
        assert ext == s[i];
        var fits;
        fits, a := TryFit(ext, n, align, node);
        if fits {
          return;
        }
        i := i + 1;
      }
      if node.None? {
        NoneFit(s, n, align);
      }
    }

    /** alloc_contiguous_internal: removes exactly the run it returns. With no preferred node
        it fails only if no aligned run of n free frames exists anywhere. It stops the kernel only
        for an aligned run and a full array. */
    method AllocContiguous(n: nat, align: nat, node: Option<NumaNode>) returns (panics: bool, r: Option<nat>)
      requires Valid() && n > 0 && IsPow2(align)
      modifies this, extents
      ensures panics ==> align > 1 && old(count) == MAX_EXTENTS && r.Some?
      ensures Valid() && count <= old(count) + if align == 1 then 0 else 1
      ensures r.Some? && !panics ==> TookRun(old(Free()), Free(), r.value, n) && r.value % align == 0 && InNode(node, r.value, n)
      ensures r.None? ==> Free() == old(Free())
      ensures node.None? ==> (r.None? <==> NoAlignedRunIn(old(Free()), n, align))
    {
      var i, a := FindFit(n, align, node);
      if i == count {
        return false, None;
      }
      ghost var s := Free();
      panics := Carve(i, a, n);
      if NoAlignedRunIn(s, n, align) { assert Interrupted(s, a, n); }
      return panics, Some(a);
    }

    /** reserve_region_internal: exactly the frames of the region stop being free, if and only if
        the array has room for the extents; otherwise the last one is dropped as well. */
    method ReserveRegion(lo: nat, n: nat)
      requires Valid()
      modifies this, extents
      ensures Valid() && count <= old(count) + 1
      ensures n == 0 ==> Free() == old(Free())
      ensures n > 0 ==> Free() == Kept(CutTo(old(Free()), lo, lo + n, |old(Free())|))
      ensures n > 0 ==>
          (Uncovered(old(Free()), Free(), lo, lo + n) <==> old(count) < MAX_EXTENTS || !SplitBefore(old(Free()), lo, lo + n, old(count)))
    {
      if n == 0 {
        return;
      }
      ghost var s := Free();
      var hi := lo + n;
      var kept := new Extent[MAX_EXTENTS];
      var m := CutAll(extents, count, kept, lo, hi);
      forall i | 0 <= i < MAX_EXTENTS {
        extents[i] := kept[i];
      }
      count := m;
      assert extents[..count] == Kept(CutTo(s, lo, hi, |s|));
      KeptIs(s, lo, hi);
    }
  }

  /** One iteration of reserve_region_internal's loop. */
  method AppendCut(a: array<Extent>, m: nat, e: Extent, lo: nat, hi: nat) returns (m': nat)
    requires a.Length == MAX_EXTENTS && m <= MAX_EXTENTS
    modifies a
    ensures m' <= MAX_EXTENTS && a[..m'] == Kept(old(a[..m]) + Cut(e, lo, hi))
  {
    m' := m;
    if lo < End(e) && hi > e.start {
      if e.start < lo {
        if m' < MAX_EXTENTS {
          a[m'] := Extent(e.start, lo - e.start);
          m' := m' + 1;
        }
      }
      if End(e) > hi {
        if m' < MAX_EXTENTS {
          a[m'] := Extent(hi, End(e) - hi);
          m' := m' + 1;
        }
      }
    } else {
      if m' < MAX_EXTENTS {
        a[m'] := e;
        m' := m' + 1;
      }
    }
  }

  /** reserve_region_internal's loop. */
  method CutAll(a: array<Extent>, n: nat, b: array<Extent>, lo: nat, hi: nat) returns (m: nat)
    requires n <= a.Length == b.Length == MAX_EXTENTS && a != b
    modifies b
    ensures m <= MAX_EXTENTS && b[..m] == Kept(CutTo(a[..n], lo, hi, n))
  {
    ghost var s := a[..n];
    m := 0;
    for i := 0 to n
      invariant m <= MAX_EXTENTS && a[..n] == s && b[..m] == Kept(CutTo(s, lo, hi, i))
    {
      KeptStep(s, lo, hi, i);
      m := AppendCut(b, m, a[i], lo, hi);
    }
  }

  /** What the new array has room for. */
  function Kept(c: seq<Extent>): seq<Extent> { if |c| <= MAX_EXTENTS then c else c[..MAX_EXTENTS] }

  lemma KeptMore(c: seq<Extent>, d: seq<Extent>)
    ensures Kept(Kept(c) + d) == Kept(c + d)
  {
    if |c| > MAX_EXTENTS { assert (c + d)[..MAX_EXTENTS] == c[..MAX_EXTENTS] == (c[..MAX_EXTENTS] + d)[..MAX_EXTENTS]; }
  }

  lemma KeptStep(s: seq<Extent>, lo: nat, hi: nat, i: nat)
    requires i < |s|
    ensures Kept(Kept(CutTo(s, lo, hi, i)) + Cut(s[i], lo, hi)) == Kept(CutTo(s, lo, hi, i + 1))
  {
    KeptMore(CutTo(s, lo, hi, i), Cut(s[i], lo, hi));
    assert CutTo(s, lo, hi, i + 1) == CutTo(s, lo, hi, i) + Cut(s[i], lo, hi);
  }

  ghost predicate Uncovered(s: seq<Extent>, s': seq<Extent>, lo: nat, hi: nat) {
    forall f :: Covers(s', f) <==> Covers(s, f) && !(lo <= f < hi)
  }

  /** What is left of an extent outside [lo, hi). */
  function Cut(e: Extent, lo: nat, hi: nat): seq<Extent> {
    if lo < End(e) && hi > e.start then
      (if e.start < lo then [Extent(e.start, lo - e.start)] else []) +
      (if End(e) > hi then [Extent(hi, End(e) - hi)] else [])
    else [e]
  }

  function CutTo(s: seq<Extent>, lo: nat, hi: nat, n: nat): seq<Extent>
    requires n <= |s|
  {
    if n == 0 then [] else CutTo(s, lo, hi, n - 1) + Cut(s[n - 1], lo, hi)
  }

  /** Extent e sticks out on both sides of [lo, hi). */
  predicate Splits(e: Extent, lo: nat, hi: nat) {
    e.start < lo && hi < End(e) && lo < End(e) && hi > e.start
  }

  predicate SplitBefore(s: seq<Extent>, lo: nat, hi: nat, n: int) {
    exists i :: 0 <= i < n && i < |s| && Splits(s[i], lo, hi)
  }

  /** At most one extent of a canonical sequence is split. */
  lemma SplitOnce(s: seq<Extent>, lo: nat, hi: nat, n: nat)
    requires Canonical(s) && lo < hi && n < |s|
    ensures SplitBefore(s, lo, hi, n) ==> !Splits(s[n], lo, hi)
    ensures SplitBefore(s, lo, hi, n + 1) <==> SplitBefore(s, lo, hi, n) || Splits(s[n], lo, hi)
  {
    if SplitBefore(s, lo, hi, n) {
      var i :| 0 <= i < n && i < |s| && Splits(s[i], lo, hi);
      assert Gap(s[i], s[n]);
    }
  }

  lemma {:induction false} CutToLength(s: seq<Extent>, lo: nat, hi: nat, n: nat)
    requires Canonical(s) && lo < hi && n <= |s|
    ensures |CutTo(s, lo, hi, n)| <= n + if SplitBefore(s, lo, hi, n) then 1 else 0
  {
    if n > 0 {
      CutToLength(s, lo, hi, n - 1);
      SplitOnce(s, lo, hi, n - 1);
      CutLength(s[n - 1], lo, hi);
    }
  }

  lemma CutLength(e: Extent, lo: nat, hi: nat)
    ensures |Cut(e, lo, hi)| <= 1 + if Splits(e, lo, hi) then 1 else 0
  {
  }

  lemma CutCovers(e: Extent, lo: nat, hi: nat, f: int)
    requires lo < hi
    ensures Covers(Cut(e, lo, hi), f) <==> In(e, f) && !(lo <= f < hi)
  {
    var c := Cut(e, lo, hi);
    if In(e, f) && !(lo <= f < hi) {
      assert In(c[if f < lo || |c| == 1 then 0 else 1], f);
    }
  }

  lemma CoversConcat(s: seq<Extent>, t: seq<Extent>, f: int)
    ensures Covers(s + t, f) <==> Covers(s, f) || Covers(t, f)
  {
    if Covers(s, f) { var i :| 0 <= i < |s| && In(s[i], f); assert In((s + t)[i], f); }
    if Covers(t, f) { var i :| 0 <= i < |t| && In(t[i], f); assert In((s + t)[|s| + i], f); }
    if Covers(s + t, f) {
      var i :| 0 <= i < |s + t| && In((s + t)[i], f);
      assert if i < |s| then In(s[i], f) else In(t[i - |s|], f);
    }
  }

  ghost predicate Within(s: seq<Extent>, lo: int, hi: int) {
    forall i | 0 <= i < |s| :: lo < s[i].start && End(s[i]) <= hi
  }

  lemma CutShape(e: Extent, lo: nat, hi: nat)
    requires e.count > 0 && lo < hi
    ensures Canonical(Cut(e, lo, hi)) && Within(Cut(e, lo, hi), e.start - 1, End(e))
  {
  }

  lemma AppendShape(p: seq<Extent>, c: seq<Extent>, mid: int, hi: int)
    requires Canonical(p) && Canonical(c) && Within(p, -1, mid) && Within(c, mid, hi) && mid <= hi
    ensures Canonical(p + c) && Within(p + c, -1, hi)
  {
    var r := p + c;
    forall i, j | 0 <= i < j < |r| ensures Gap(r[i], r[j]) {
      if j < |p| { assert Gap(p[i], p[j]); }
      else if i >= |p| { assert Gap(c[i - |p|], c[j - |p|]); }
    }
    forall i | 0 <= i < |r| ensures -1 < r[i].start && End(r[i]) <= hi {
      if i >= |p| { assert r[i] == c[i - |p|]; }
    }
  }

  lemma CutMore(p: seq<Extent>, e: Extent, lo: nat, hi: nat, mid: int)
    requires Canonical(p) && Within(p, -1, mid) && mid < e.start && e.count > 0 && lo < hi
    ensures Canonical(p + Cut(e, lo, hi)) && Within(p + Cut(e, lo, hi), -1, End(e))
  {
    CutShape(e, lo, hi);
    AppendShape(p, Cut(e, lo, hi), mid, End(e));
  }

  lemma TableGap(s: seq<Extent>, i: nat)
    requires TableOk(s) && i < |s|
    ensures s[i].count > 0 && (i > 0 ==> End(s[i - 1]) < s[i].start)
  {
    assert i > 0 ==> Gap(s[i - 1], s[i]);
  }

  /** Cutting a region out of a canonical sequence leaves it canonical, */
  lemma {:induction false} CutToShape(s: seq<Extent>, lo: nat, hi: nat, n: nat)
    requires TableOk(s) && lo < hi && n <= |s|
    ensures Canonical(CutTo(s, lo, hi, n)) && Within(CutTo(s, lo, hi, n), -1, if n == 0 then -1 else End(s[n - 1]))
  {
    if n > 0 {
      CutToShape(s, lo, hi, n - 1);
      TableGap(s, n - 1);
      CutMore(CutTo(s, lo, hi, n - 1), s[n - 1], lo, hi, if n == 1 then -1 else End(s[n - 2]));
    }
  }

  /** and uncovers exactly the region. */
  lemma {:induction false} CutToCovers(s: seq<Extent>, lo: nat, hi: nat, n: nat, f: int)
    requires lo < hi && n <= |s|
    ensures Covers(CutTo(s, lo, hi, n), f) <==> Covers(s[..n], f) && !(lo <= f < hi)
  {
    if n > 0 {
      CutToCovers(s, lo, hi, n - 1, f);
      CoversLast(s, n, f);
      CutCovers(s[n - 1], lo, hi, f);
      CoversConcat(CutTo(s, lo, hi, n - 1), Cut(s[n - 1], lo, hi), f);
    }
  }

  lemma CoversLast(s: seq<Extent>, n: nat, f: int)
    requires 0 < n <= |s|
    ensures Covers(s[..n], f) <==> Covers(s[..n - 1], f) || In(s[n - 1], f)
  {
    CoversSnoc(s[..n - 1], s[n - 1], f);
    assert s[..n] == s[..n - 1] + [s[n - 1]];
  }

  lemma CutToIs(s: seq<Extent>, lo: nat, hi: nat)
    requires TableOk(s) && lo < hi
    ensures TableOk(CutTo(s, lo, hi, |s|))
    ensures forall f :: Covers(CutTo(s, lo, hi, |s|), f) <==> Covers(s, f) && !(lo <= f < hi)
  {
    CutToShape(s, lo, hi, |s|);
    assert |s| > 0 ==> End(s[|s| - 1]) <= FRAME_LIMIT;
    assert s[..|s|] == s;
    forall f ensures Covers(CutTo(s, lo, hi, |s|), f) <==> Covers(s, f) && !(lo <= f < hi) {
      CutToCovers(s, lo, hi, |s|, f);
    }
  }

  /** A split leaves every other extent as it was. */
  lemma {:induction false} SplitLength(s: seq<Extent>, lo: nat, hi: nat, k: nat, n: nat)
    requires Canonical(s) && lo < hi && k < |s| && n <= |s| && Splits(s[k], lo, hi)
    ensures |CutTo(s, lo, hi, n)| == n + if k < n then 1 else 0
  {
    if n > 0 {
      SplitLength(s, lo, hi, k, n - 1);
      if k < n - 1 { assert Gap(s[k], s[n - 1]); }
      if k > n - 1 { assert Gap(s[n - 1], s[k]); }
    }
  }

  /** The array stays canonical, and loses more than the region exactly if it is full and an
      extent is split. */
  lemma KeptIs(s: seq<Extent>, lo: nat, hi: nat)
    requires TableOk(s) && lo < hi && |s| <= MAX_EXTENTS
    ensures var c := Kept(CutTo(s, lo, hi, |s|));
            && TableOk(c) && |c| <= |s| + 1
            && (Uncovered(s, c, lo, hi) <==> |s| < MAX_EXTENTS || !SplitBefore(s, lo, hi, |s|))
  {
    var d := CutTo(s, lo, hi, |s|);
    CutToIs(s, lo, hi);
    CutToLength(s, lo, hi, |s|);
    if |s| == MAX_EXTENTS && SplitBefore(s, lo, hi, |s|) {
      var k :| 0 <= k < |s| && Splits(s[k], lo, hi);
      SplitLength(s, lo, hi, k, |s|);
      var f := d[MAX_EXTENTS].start;
      assert In(d[MAX_EXTENTS], f) && Covers(d, f);
      forall i | 0 <= i < MAX_EXTENTS ensures !In(d[i], f) { assert Gap(d[i], d[MAX_EXTENTS]); }
      assert !Covers(Kept(d), f);
    }
  }
}
