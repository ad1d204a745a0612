/** The kernel heap's address arena, class VmArena of archs/memory/kheap_slab.cpp. Addresses
    are multiples of the page size and are kept here as page numbers. */
module VmArena {
  import opened Bits
  import opened Counting
  import opened Extents
  import opened FreeRuns

  const MAX_REGIONS := 512
  const PAGE_SIZE := 4096

  /** A region's page count is a 32-bit field; 64-bit addresses are 52-bit page numbers. */
  const U32 := 0x1_0000_0000
  const SPACE := FRAME_LIMIT

  // ---------------------------------------------------------------- merging two neighbours

  function MergeAt(t: seq<Extent>, i: nat): seq<Extent>
    requires i + 1 < |t|
  {
    if End(t[i]) == t[i + 1].start then t[..i] + [Extent(t[i].start, t[i].count + t[i + 1].count)] + t[i + 2..] else t
  }

  /** coalesce_around on values. */
  function CoalesceAround(t: seq<Extent>, i: nat): seq<Extent>
    requires i < |t|
  {
    var u := if i + 1 < |t| then MergeAt(t, i) else t;
    if i > 0 then MergeAt(u, i - 1) else u
  }

  ghost predicate GapAt(t: seq<Extent>, j: int) {
    0 <= j < |t| - 1 && Gap(t[j], t[j + 1])
  }

  lemma CanonicalByNeighbours(t: seq<Extent>)
    requires Ascending(t) && forall j | 0 <= j < |t| - 1 :: GapAt(t, j)
    ensures Canonical(t)
  {
    forall i, j | 0 <= i < j < |t| ensures Gap(t[i], t[j]) {
      assert GapAt(t, i) && (i + 1 < j ==> Meets(t[i + 1], t[j]));
    }
  }

  lemma MergeAtCovers(t: seq<Extent>, i: nat, f: int)
    requires i + 1 < |t|
    ensures Covers(MergeAt(t, i), f) <==> Covers(t, f)
  {
    var u := MergeAt(t, i);
    if u != t {
      if Covers(t, f) {
        var k :| 0 <= k < |t| && In(t[k], f);
        assert In(u[if k <= i then k else k - 1], f);
      }
      if Covers(u, f) {
        var k :| 0 <= k < |u| && In(u[k], f);
        assert In(t[if k < i then k else if k > i then k + 1 else if f < End(t[i]) then i else i + 1], f);
      }
    }
  }

  /** A merge keeps the order, closes the one gap and leaves the others. */
  lemma MergeAtShape(t: seq<Extent>, i: nat)
    requires Ascending(t) && i + 1 < |t|
    ensures var u := MergeAt(t, i);
            && Ascending(u) && (u == t ==> GapAt(t, i))
            && (u != t ==> |u| == |t| - 1)
            && (u != t ==> forall j | 0 <= j < |u| - 1 :: GapAt(u, j) <==> GapAt(t, if j < i then j else j + 1))
  {
    assert Meets(t[i], t[i + 1]);
    var u := MergeAt(t, i);
    if u != t {
      forall a, b | 0 <= a < b < |u| ensures Meets(u[a], u[b]) {
        var a', b' := if a < i then a else a + 1, if b <= i then b else b + 1;
        assert Meets(t[a'], t[b']);
      }
    }
  }

  lemma CoalesceAroundShape(t: seq<Extent>, i: nat)
    requires Ascending(t) && i < |t| && forall j | 0 <= j < |t| - 1 && j != i && j != i - 1 :: GapAt(t, j)
    ensures Canonical(CoalesceAround(t, i)) && |CoalesceAround(t, i)| <= |t|
  {
    var u := MergedUp(t, i);
    if i > 0 {
      MergedDown(u, i - 1);
    } else {
      CanonicalByNeighbours(u);
    }
  }

  /** The second half closes the gap below. */
  lemma MergedDown(u: seq<Extent>, k: nat)
    requires Ascending(u) && k + 1 < |u| && forall j | 0 <= j < |u| - 1 && j != k :: GapAt(u, j)
    ensures Canonical(MergeAt(u, k)) && |MergeAt(u, k)| <= |u|
  {
    MergeAtShape(u, k);
    var v := MergeAt(u, k);
    forall j | 0 <= j < |v| - 1 ensures GapAt(v, j) {
      if v != u { assert GapAt(u, if j < k then j else j + 1); }
    }
    CanonicalByNeighbours(v);
  }

  /** The first half of coalesce_around closes the gap above. */
  lemma MergedUp(t: seq<Extent>, i: nat) returns (u: seq<Extent>)
    requires Ascending(t) && i < |t| && forall j | 0 <= j < |t| - 1 && j != i && j != i - 1 :: GapAt(t, j)
    ensures u == if i + 1 < |t| then MergeAt(t, i) else t
    ensures Ascending(u) && i < |u| <= |t| && forall j | 0 <= j < |u| - 1 && j != i - 1 :: GapAt(u, j)
  {
    u := if i + 1 < |t| then MergeAt(t, i) else t;
    if i + 1 < |t| { MergeAtShape(t, i); }
    forall j | 0 <= j < |u| - 1 && j != i - 1 ensures GapAt(u, j) {
      if u != t { assert GapAt(t, if j < i then j else j + 1); }
    }
  }

  lemma CoalesceAroundIs(t: seq<Extent>, i: nat)
    requires Ascending(t) && i < |t| && forall j | 0 <= j < |t| - 1 && j != i && j != i - 1 :: GapAt(t, j)
    ensures Canonical(CoalesceAround(t, i)) && |CoalesceAround(t, i)| <= |t|
    ensures forall f :: Covers(CoalesceAround(t, i), f) <==> Covers(t, f)
  {
    CoalesceAroundShape(t, i);
    var u := MergedUp(t, i);
    forall f ensures Covers(CoalesceAround(t, i), f) <==> Covers(t, f) {
      if i + 1 < |t| { MergeAtCovers(t, i, f); }
      if i > 0 { MergeAtCovers(u, i - 1, f); }
    }
  }

  /** Inserting a region and merging it with its neighbours is what makes it free. */
  lemma InsertCoalesced(s: seq<Extent>, i: nat, e: Extent)
    requires Canonical(s) && IsSlot(s, i, e.start) && e.count > 0 && forall f | In(e, f) :: !Covers(s, f)
    ensures var t := CoalesceAround(InsertedAt(s, i, e), i);
            Canonical(t) && |t| <= |s| + 1 && forall f :: Covers(t, f) <==> Covers(s, f) || In(e, f)
  {
    var t := InsertedAt(s, i, e);
    InsertedAscending(s, i, e);
    forall j | 0 <= j < |t| - 1 && j != i && j != i - 1 ensures GapAt(t, j) {
      var k := if j < i then j else j - 1;
      assert t[j] == s[k] && t[j + 1] == s[k + 1] && Gap(s[k], s[k + 1]);
    }
    CoalesceAroundIs(t, i);
    forall f ensures Covers(t, f) <==> Covers(s, f) || In(e, f) { InsertedCovers(s, i, e, f); }
  }

  /** On a coalesced table there is nothing to merge. */
  lemma NothingToCoalesce(s: seq<Extent>, i: nat)
    requires Canonical(s) && i < |s|
    ensures CoalesceAround(s, i) == s
  {
    assert i + 1 < |s| ==> Gap(s[i], s[i + 1]);
    assert i > 0 ==> Gap(s[i - 1], s[i]);
  }

  // ---------------------------------------------------------------- replacing one region

  function Replaced(s: seq<Extent>, i: nat, c: seq<Extent>): seq<Extent>
    requires i < |s|
  {
    s[..i] + c + s[i + 1..]
  }

  /** c lies inside e. */
  ghost predicate Inside(c: seq<Extent>, e: Extent) {
    forall k | 0 <= k < |c| :: e.start <= c[k].start && End(c[k]) <= End(e)
  }

  lemma ReplacedShape(s: seq<Extent>, i: nat, c: seq<Extent>)
    requires Canonical(s) && i < |s| && Canonical(c) && Inside(c, s[i])
    ensures Canonical(Replaced(s, i, c))
  {
    var r := Replaced(s, i, c);
    forall a, b | 0 <= a < b < |r| ensures Gap(r[a], r[b]) {
      var a', b' := OldIndex(s, i, c, a), OldIndex(s, i, c, b);
      if a' == b' {
        assert Gap(c[a - i], c[b - i]);
      } else {
        assert Gap(s[a'], s[b']);
      }
    }
  }

  /** The region of s that position k of the replaced sequence comes from. */
  function OldIndex(s: seq<Extent>, i: nat, c: seq<Extent>, k: nat): nat
    requires i < |s| && k < |Replaced(s, i, c)|
  {
    if k < i then k else if k < i + |c| then i else k - |c| + 1
  }

  /** What an inserted or dropped piece does to coverage, by position. */
  lemma CoversBy(r: seq<Extent>, f: int, k: nat)
    requires k < |r| && In(r[k], f)
    ensures Covers(r, f)
  {
  }

  lemma ReplacedFrom(s: seq<Extent>, i: nat, c: seq<Extent>, f: int)
    requires i < |s| && Covers(Replaced(s, i, c), f)
    ensures Covers(RemovedAt(s, i), f) || Covers(c, f)
  {
    var r, d := Replaced(s, i, c), RemovedAt(s, i);
    var k :| 0 <= k < |r| && In(r[k], f);
    if k < i { CoversBy(d, f, k); } else if k < i + |c| { CoversBy(c, f, k - i); } else { CoversBy(d, f, k - |c|); }
  }

  lemma ReplacedCovers(s: seq<Extent>, i: nat, c: seq<Extent>, f: int)
    requires Canonical(s) && i < |s|
    ensures Covers(Replaced(s, i, c), f) <==> (Covers(s, f) && !In(s[i], f)) || Covers(c, f)
  {
    RemovedCovers(s, i, f);
    var r, d := Replaced(s, i, c), RemovedAt(s, i);
    if Covers(c, f) { var k :| 0 <= k < |c| && In(c[k], f); CoversBy(r, f, i + k); }
    if Covers(d, f) { var k :| 0 <= k < |d| && In(d[k], f); CoversBy(r, f, if k < i then k else k + |c|); }
    if Covers(r, f) { ReplacedFrom(s, i, c, f); }
  }

  // ---------------------------------------------------------------- the partition

  ghost predicate PageOk(s: seq<Extent>, start: nat, watermark: nat, live: set<int>, dropped: set<int>, p: int) {
    && (start <= p < watermark <==> Covers(s, p) || p in live || p in dropped)
    && !(Covers(s, p) && p in live) && !(Covers(s, p) && p in dropped) && !(p in live && p in dropped)
  }

  /** Below the watermark every page is free, live or dropped, and only one of these. */
  ghost predicate ArenaOk(s: seq<Extent>, start: nat, watermark: nat, live: set<int>, dropped: set<int>) {
    TableOk(s) && start <= watermark && forall p :: PageOk(s, start, watermark, live, dropped, p)
  }

  /** Pages [a, a + n) become live and those in d dropped, all of them free before. */
  lemma TakeKeeps(s: seq<Extent>, s': seq<Extent>, start: nat, watermark: nat, live: set<int>, dropped: set<int>, a: nat, n: nat, d: set<int>)
    requires ArenaOk(s, start, watermark, live, dropped) && Canonical(s')
    requires forall f | a <= f < a + n :: Covers(s, f)
    requires forall f | f in d :: Covers(s, f) && !(a <= f < a + n)
    requires forall f :: Covers(s', f) <==> Covers(s, f) && !(a <= f < a + n) && f !in d
    ensures ArenaOk(s', start, watermark, live + RunSet(a, n), dropped + d) && live !! RunSet(a, n)
  {
    EndsBounded(s, Extent(0, 0), s');
    forall p ensures PageOk(s', start, watermark, live + RunSet(a, n), dropped + d, p) {
      assert PageOk(s, start, watermark, live, dropped, p);
    }
    forall p | p in RunSet(a, n) ensures p !in live { assert PageOk(s, start, watermark, live, dropped, p); }
  }

  /** The watermark moves up over a free or dropped gap and a live run. */
  lemma TailKeeps(s: seq<Extent>, s': seq<Extent>, start: nat, watermark: nat, live: set<int>, dropped: set<int>, a: nat, n: nat, d: set<int>)
    requires ArenaOk(s, start, watermark, live, dropped) && Canonical(s') && watermark <= a && a + n <= FRAME_LIMIT
    requires forall f | f in d :: watermark <= f < a
    requires forall f :: Covers(s', f) <==> Covers(s, f) || (watermark <= f < a && f !in d)
    ensures ArenaOk(s', start, a + n, live + RunSet(a, n), dropped + d) && live !! RunSet(a, n)
  {
    EndsBounded(s, Extent(watermark, a - watermark), s');
    var top, run := a + n, RunSet(a, n);
    forall p ensures PageOk(s', start, top, live + run, dropped + d, p) {
      TailPage(s, s', start, watermark, live, dropped, a, n, d, p);
    }
    forall p | p in run ensures p !in live { assert PageOk(s, start, watermark, live, dropped, p); }
  }

  lemma TailPage(s: seq<Extent>, s': seq<Extent>, start: nat, watermark: nat, live: set<int>, dropped: set<int>, a: nat, n: nat, d: set<int>, p: int)
    requires PageOk(s, start, watermark, live, dropped, p) && start <= watermark <= a
    requires p in d ==> watermark <= p < a
    requires Covers(s', p) <==> Covers(s, p) || (watermark <= p < a && p !in d)
    ensures PageOk(s', start, a + n, live + RunSet(a, n), dropped + d, p)
  {
  }

  /** A live run becomes free. */
  lemma FreeKeeps(s: seq<Extent>, s': seq<Extent>, start: nat, watermark: nat, live: set<int>, dropped: set<int>, a: nat, n: nat)
    requires ArenaOk(s, start, watermark, live, dropped) && Canonical(s') && watermark <= FRAME_LIMIT
    requires n > 0 && RunSet(a, n) <= live
    requires forall f :: Covers(s', f) <==> Covers(s, f) || a <= f < a + n
    ensures ArenaOk(s', start, watermark, live - RunSet(a, n), dropped)
  {
    assert a + n - 1 in RunSet(a, n) && PageOk(s, start, watermark, live, dropped, a + n - 1);
    EndsBounded(s, Extent(a, n), s');
    forall p ensures PageOk(s', start, watermark, live - RunSet(a, n), dropped, p) {
      assert PageOk(s, start, watermark, live, dropped, p);
      assert a <= p < a + n <==> p in RunSet(a, n);
    }
  }

  /** No region is larger than the arena below the watermark. */
  lemma RegionSmall(s: seq<Extent>, start: nat, watermark: nat, live: set<int>, dropped: set<int>, i: nat)
    requires ArenaOk(s, start, watermark, live, dropped) && i < |s|
    ensures start <= s[i].start && End(s[i]) <= watermark
  {
    assert In(s[i], s[i].start) && In(s[i], End(s[i]) - 1);
    assert PageOk(s, start, watermark, live, dropped, s[i].start);
    assert PageOk(s, start, watermark, live, dropped, End(s[i]) - 1);
  }

  lemma BelowWatermark(s: seq<Extent>, start: nat, watermark: nat, live: set<int>, dropped: set<int>)
    requires ArenaOk(s, start, watermark, live, dropped)
    ensures forall f | f >= watermark :: !Covers(s, f)
  {
    forall f | f >= watermark ensures !Covers(s, f) { assert PageOk(s, start, watermark, live, dropped, f); }
  }

  lemma LiveRun(s: seq<Extent>, start: nat, watermark: nat, live: set<int>, dropped: set<int>, a: nat, n: nat)
    requires ArenaOk(s, start, watermark, live, dropped) && n > 0 && RunSet(a, n) <= live
    ensures start <= a && a + n <= watermark && forall f | a <= f < a + n :: !Covers(s, f)
  {
    assert a in RunSet(a, n) && a + n - 1 in RunSet(a, n);
    assert PageOk(s, start, watermark, live, dropped, a) && PageOk(s, start, watermark, live, dropped, a + n - 1);
    forall f | a <= f < a + n ensures !Covers(s, f) {
      assert f in RunSet(a, n) && PageOk(s, start, watermark, live, dropped, f);
    }
  }

  /** If every region is too small, no run of that many free pages exists. */
  lemma AllTooSmall(s: seq<Extent>, n: nat)
    requires Canonical(s) && n > 0 && forall i | 0 <= i < |s| :: s[i].count < n
    ensures NoAlignedRunIn(s, n, 1)
  {
    forall a: nat | a % 1 == 0 ensures Interrupted(s, a, n) {
      if forall f | a <= f < a + n :: Covers(s, f) {
        var i := RunInOne(s, a, n);
      }
    }
  }

  lemma NoRunOf(s: seq<Extent>, start: nat, watermark: nat, live: set<int>, dropped: set<int>, n: nat)
    requires ArenaOk(s, start, watermark, live, dropped) && watermark - start < U32 && n > 0
    requires n >= U32 || forall i | 0 <= i < |s| :: s[i].count < n
    ensures NoAlignedRunIn(s, n, 1)
  {
    forall i | 0 <= i < |s| ensures s[i].count < n { RegionSmall(s, start, watermark, live, dropped, i); }
    AllTooSmall(s, n);
  }

  // ---------------------------------------------------------------- taking a run out of a region

  /** What stays in the table of a region that gives up [a, a + n): the part below, and the
      part above unless that would be a second piece and there is no room for it. */
  function Remains(e: Extent, a: nat, n: nat, room: bool): seq<Extent>
    requires e.start <= a && a + n <= End(e)
  {
    (if a > e.start then [Extent(e.start, a - e.start)] else []) +
    (if End(e) > a + n && (a == e.start || room) then [Extent(a + n, End(e) - (a + n))] else [])
  }

  /** The part above that finds no room. */
  ghost function Lost(e: Extent, a: nat, n: nat, room: bool): set<int>
    requires e.start <= a && a + n <= End(e)
  {
    if a > e.start && !room then RunSet(a + n, End(e) - (a + n)) else {}
  }

  lemma RemainsCovers(e: Extent, a: nat, n: nat, room: bool, f: int)
    requires e.start <= a && a + n <= End(e) && n > 0
    ensures Covers(Remains(e, a, n, room), f) <==> In(e, f) && !(a <= f < a + n) && f !in Lost(e, a, n, room)
  {
    var c := Remains(e, a, n, room);
    if In(e, f) && !(a <= f < a + n) && f !in Lost(e, a, n, room) {
      assert In(c[if f < a then 0 else |c| - 1], f);
    }
  }

  lemma RemainsIs(s: seq<Extent>, i: nat, a: nat, n: nat, room: bool)
    requires Canonical(s) && i < |s| && s[i].start <= a && a + n <= End(s[i]) && n > 0
    ensures var t := Replaced(s, i, Remains(s[i], a, n, room)); var d := Lost(s[i], a, n, room);
            && Canonical(t) && (forall f | f in d :: Covers(s, f) && !(a <= f < a + n)) && (forall f | a <= f < a + n :: Covers(s, f))
            && (forall f :: Covers(t, f) <==> Covers(s, f) && !(a <= f < a + n) && f !in d)
  {
    var c, d := Remains(s[i], a, n, room), Lost(s[i], a, n, room);
    var t := Replaced(s, i, c);
    ReplacedShape(s, i, c);
    forall f | In(s[i], f) ensures Covers(s, f) { }
    forall f ensures Covers(t, f) <==> Covers(s, f) && !(a <= f < a + n) && f !in d {
      ReplacedCovers(s, i, c, f);
      RemainsCovers(s[i], a, n, room, f);
    }
  }

  lemma FrontReplaced(s: seq<Extent>, i: nat, n: nat)
    requires i < |s| && 0 < n <= s[i].count
    ensures var t := Replaced(s, i, Remains(s[i], s[i].start, n, true));
            t == if s[i].count == n then RemovedAt(s, i) else s[i := Extent(s[i].start + n, s[i].count - n)]
  {
  }

  // ---------------------------------------------------------------- the array

  /** lower_bound: the first region that does not start before the page. */
  method LowerBound(a: array<Extent>, n: nat, page: nat) returns (lo: nat)
    requires n <= a.Length && forall i, j | 0 <= i < j < n :: a[i].start <= a[j].start
    ensures lo <= n && (forall k | 0 <= k < lo :: a[k].start < page) && (forall k | lo <= k < n :: a[k].start >= page)
  {
    var hi := n;
    lo := 0;
    while lo < hi
      invariant lo <= hi <= n
      invariant forall k | 0 <= k < lo :: a[k].start < page
      invariant forall k | hi <= k < n :: a[k].start >= page
    {
      var mid := (lo + hi) / 2;
      if a[mid].start < page {
        lo := mid + 1;
      } else {
        hi := mid;
      }
    }
  }

  lemma MergeIsRemoval(t: seq<Extent>, i: nat)
    requires i + 1 < |t| && End(t[i]) == t[i + 1].start
    ensures MergeAt(t, i) == RemovedAt(t[i := Extent(t[i].start, t[i].count + t[i + 1].count)], i + 1)
  {
  }

  /** One half of coalesce_around. */
  method MergeNeighbours(a: array<Extent>, n: nat, i: nat) returns (m: nat)
    requires i + 1 < n <= a.Length
    modifies a
    ensures m <= n && a[..m] == MergeAt(old(a[..n]), i)
  {
    ghost var s := a[..n];
    m := n;
    if a[i].start + a[i].count == a[i + 1].start {
      MergeIsRemoval(s, i);
      a[i] := Extent(a[i].start, a[i].count + a[i + 1].count);
      assert a[..n] == s[i := Extent(s[i].start, s[i].count + s[i + 1].count)];
      RemoveExtent(a, n, i + 1);
      m := n - 1;
    }
  }

  /** coalesce_around. */
  method Coalesce(a: array<Extent>, n: nat, idx: nat) returns (m: nat)
    requires idx < n <= a.Length
    modifies a
    ensures m <= n && a[..m] == CoalesceAround(old(a[..n]), idx)
  {
    m := n;
    if idx + 1 < n {
      m := MergeNeighbours(a, n, idx);
    }
    if idx > 0 {
      assert m == |a[..m]|;
      m := MergeNeighbours(a, m, idx - 1);
    }
  }

  /** lower_bound, insert_at and coalesce_around: the region becomes free. */
  method FreeAt(a: array<Extent>, n: nat, e: Extent) returns (m: nat)
    requires n < a.Length && Canonical(a[..n]) && e.count > 0 && forall f | In(e, f) :: !Covers(a[..n], f)
    modifies a
    ensures m <= n + 1 && Canonical(a[..m])
    ensures forall f :: Covers(a[..m], f) <==> Covers(old(a[..n]), f) || In(e, f)
  {
    ghost var s := a[..n];
    Sorted(a, n);
    var idx := LowerBound(a, n, e.start);
    forall k | idx <= k < |s| ensures s[k].start > e.start { assert In(s[k], s[k].start) && In(e, e.start) && Covers(s, s[k].start); }
    InsertCoalesced(s, idx, e);
    InsertAt(a, n, idx, e);
    m := Coalesce(a, n + 1, idx);
  }

  lemma Sorted(a: array<Extent>, n: nat)
    requires n <= a.Length && Canonical(a[..n])
    ensures forall i, j | 0 <= i < j < n :: a[i].start <= a[j].start
  {
    forall i, j | 0 <= i < j < n ensures a[i].start <= a[j].start { assert Gap(a[..n][i], a[..n][j]); }
  }

  /** A comparison of page counts on 32 bits. */
  predicate CountFits(count: nat, need: int) { count >= need % U32 }

  /** The binary search finds the place after region i for the pages that end it. */
  lemma InsertPlace(s: seq<Extent>, t: seq<Extent>, i: nat, ins: nat, from: nat, rem: nat)
    requires Canonical(s) && i < |s| == |t| && t == s[i := t[i]] && t[i].start == s[i].start && s[i].start < from && rem > 0
    requires ins <= |t| && (forall k | 0 <= k < ins :: t[k].start < from % SPACE) && (forall k | ins <= k < |t| :: t[k].start >= from % SPACE)
    ensures from + rem == End(s[i]) <= SPACE ==> from % SPACE == from && ins == i + 1
  {
    if from + rem == End(s[i]) <= SPACE {
      assert from % SPACE == from && t[i].start < from;
      assert i + 1 < |s| ==> Gap(s[i], s[i + 1]) && t[i + 1] == s[i + 1];
    }
  }

  /** The stores that keep the gap below [at, at + len) in region i and, if the table has room,
      insert the pages above it. */
  method KeepGap(a: array<Extent>, n: nat, i: nat, at: nat, len: nat, rem: nat) returns (m: nat)
    requires i < n <= a.Length && Canonical(a[..n]) && len > 0 && a[i].start < at
    modifies a
    ensures m <= a.Length && m <= n + 1
    ensures old(at + len + rem == End(a[i]) <= SPACE && at - a[i].start < U32) ==>
        a[..m] == Replaced(old(a[..n]), i, Remains(old(a[i]), at, len, n < a.Length))
  {
    ghost var s := a[..n];
    m := n;
    Sorted(a, n);
    a[i] := Extent(a[i].start, (at - a[i].start) % U32);
    if rem > 0 {
      var tb := (at + len) % SPACE;
      var ins := LowerBound(a, n, tb);
      if n < a.Length {
        InsertPlace(s, a[..n], i, ins, at + len, rem);
        InsertAt(a, n, ins, Extent(tb, rem));
        m := n + 1;
      }
    }
  }

  /** alloc_aligned's stores into region i when it gives up [at, at + len), in the widths of
      the source. Without overflow the region keeps what Remains says. */
  method SplitArray(a: array<Extent>, n: nat, i: nat, at: nat, len: nat, need: nat) returns (m: nat)
    requires i < n <= a.Length && Canonical(a[..n]) && len > 0 && a[i].start <= at
    requires need == at - a[i].start + len && CountFits(a[i].count, need) && End(a[i]) <= SPACE
    modifies a
    ensures m <= a.Length && m <= n + 1
    ensures need < U32 ==>
        at + len <= old(End(a[i])) && a[..m] == Replaced(old(a[..n]), i, Remains(old(a[i]), at, len, n < a.Length))
  {
    var gap := at - a[i].start;
    var rem := a[i].count - need % U32;
    if gap > 0 {
      m := KeepGap(a, n, i, at, len, rem);
    } else if rem == 0 {
      RemoveExtent(a, n, i);
      m := n - 1;
    } else {
      a[i] := Extent((at + len) % SPACE, rem);
      m := n;
    }
  }

  // ---------------------------------------------------------------- alignment

  /** ALIGN_UP of a page's address to a number of pages. */
  function AlignPages(page: nat, align: nat): nat
    requires 0 < align * PAGE_SIZE <= TOP
  {
    AlignUp(page * PAGE_SIZE, align * PAGE_SIZE) / PAGE_SIZE
  }

  lemma AlignPagesIs(page: nat, align: nat)
    requires IsPow2(align) && align <= U32 && page + align <= SPACE
    ensures 0 < align <= TOP && 0 < align * PAGE_SIZE <= TOP
    ensures AlignPages(page, align) == AlignUp(page, align) && page + align <= TOP
    ensures AlignUp(page, align) % align == 0 && page <= AlignUp(page, align) < page + align
  {
    var k :| 0 <= k < WIDTH && align == Pow2(k);
    BelowPages(k);
    Pow2Add(k, 12);
    assert Pow2(12) == PAGE_SIZE;
    AlignUpScales(page, align, PAGE_SIZE);
    AlignUpIs(page, align);
  }

  /** The pages a region must have for an aligned request: the gap below and the request. */
  function Need(e: Extent, pages: nat, align: nat): int
    requires 0 < align <= TOP
  {
    AlignUp(e.start, align) - e.start + pages
  }

  /** alloc_aligned's test of one region, which looks at 32 bits. */
  predicate Passes(e: Extent, pages: nat, align: nat)
    requires 0 < align <= TOP
  {
    CountFits(e.count, Need(e, pages, align))
  }

  predicate FirstPass(s: seq<Extent>, pages: nat, align: nat, i: int)
    requires 0 < align <= TOP
  {
    0 <= i < |s| && Passes(s[i], pages, align) && forall k | 0 <= k < i :: !Passes(s[k], pages, align)
  }

  /** A request that alloc_aligned grants although nothing can hold it: the first region to
      pass the test needs at least 2^32 pages, or none passes and the tail test wraps. */
  ghost predicate Overflows(s: seq<Extent>, watermark: nat, limit: nat, pages: nat, align: nat)
    requires 0 < align <= TOP
  {
    || (exists i :: FirstPass(s, pages, align, i) && Need(s[i], pages, align) >= U32)
    || ((forall i | 0 <= i < |s| :: !Passes(s[i], pages, align)) &&
        TailFits(AlignUp(watermark, align), pages, limit) && limit < AlignUp(watermark, align) + pages)
  }

  /** alloc_aligned's tail test, on the 64 bits of an address. */
  predicate TailFits(a: nat, pages: nat, limit: nat) { (a + pages) % SPACE <= limit }

  /** Requests that stay below 2^32 pages with their alignment never do. */
  lemma SmallNeverOverflows(s: seq<Extent>, start: nat, watermark: nat, live: set<int>, dropped: set<int>, limit: nat, pages: nat, align: nat)
    requires ArenaOk(s, start, watermark, live, dropped) && watermark <= limit && limit + 2 * U32 <= SPACE
    requires IsPow2(align) && pages + align <= U32
    ensures 0 < align <= TOP && !Overflows(s, watermark, limit, pages, align)
  {
    AlignPagesIs(watermark, align);
    forall i | 0 <= i < |s| ensures Need(s[i], pages, align) < U32 {
      RegionSmall(s, start, watermark, live, dropped, i);
      AlignPagesIs(s[i].start, align);
    }
  }

  lemma FirstPassOnly(s: seq<Extent>, watermark: nat, limit: nat, pages: nat, align: nat, i: nat)
    requires 0 < align <= TOP && FirstPass(s, pages, align, i)
    ensures Overflows(s, watermark, limit, pages, align) <==> Need(s[i], pages, align) >= U32
  {
    forall j | FirstPass(s, pages, align, j) ensures j == i { }
  }

  /** A region that passes without overflow holds an aligned run. */
  lemma PassHasRun(s: seq<Extent>, pages: nat, align: nat, i: nat)
    requires 0 < align <= TOP && i < |s| && Passes(s[i], pages, align)
    requires s[i].start <= AlignUp(s[i].start, align) && AlignUp(s[i].start, align) % align == 0
    ensures Need(s[i], pages, align) < U32 ==> !NoAlignedRunIn(s, pages, align)
  {
    var a := AlignUp(s[i].start, align);
    if Need(s[i], pages, align) < U32 {
      forall f | a <= f < a + pages ensures Covers(s, f) { assert In(s[i], f); }
      assert !Interrupted(s, a, pages);
    }
  }

  /** The test of one region. */
  method TryAligned(e: Extent, pages: nat, align: nat) returns (ok: bool, a: nat)
    requires IsPow2(align) && align <= U32 && e.start + align <= SPACE
    ensures 0 < align <= TOP && a == AlignUp(e.start, align) && a % align == 0 && e.start <= a
    ensures (ok <==> Passes(e, pages, align)) && (!ok ==> !Fits(e, pages, align))
  {
    AlignPagesIs(e.start, align);
    a := AlignPages(e.start, align);
    var gap := a - e.start;
    var need := gap + pages;
    ok := e.count >= need % U32;
  }

  /** No aligned run fits above the watermark. */
  ghost predicate NoTail(watermark: nat, limit: nat, n: nat, align: nat)
    requires align > 0
  {
    forall a: nat | a % align == 0 && a >= watermark :: a + n > limit
  }

  lemma TailTooSmall(watermark: nat, limit: nat, n: nat, align: nat)
    requires IsPow2(align) && 0 < align <= TOP && watermark + align <= TOP
    requires AlignUp(watermark, align) + n > limit
    ensures NoTail(watermark, limit, n, align)
  {
    forall a: nat | a % align == 0 && a >= watermark ensures a + n > limit {
      AlignUpIsLeast(watermark, align, a);
    }
  }

  // ---------------------------------------------------------------- requests that overflow

  /** alloc passes its tail test. */
  predicate TailPasses(watermark: nat, limit: nat, pages: nat) {
    watermark <= (watermark + pages) % SPACE <= limit
  }

  /** A request for at least 2^32 pages that alloc nevertheless grants: its low 32 bits fit
      a region, or its byte size wraps to one that fits the tail. */
  ghost predicate Truncates(s: seq<Extent>, watermark: nat, limit: nat, pages: nat) {
    pages >= U32 && ((exists i :: 0 <= i < |s| && s[i].count >= pages % U32) || TailPasses(watermark, limit, pages))
  }

  /** Region i is the first that is large enough. */
  predicate FirstFit(s: seq<Extent>, pages: nat, i: int) {
    0 <= i < |s| && s[i].count >= pages && forall k | 0 <= k < i :: s[k].count < pages
  }

  class VmArena {
    const regions: array<Extent>
    var count: nat
    var watermark: nat
    const limit: nat
    ghost const start: nat
    ghost var live: set<int>
    ghost var dropped: set<int>

    ghost predicate Sized()
      reads this
    {
      && regions.Length == MAX_REGIONS && count <= MAX_REGIONS
      && 0 < start <= watermark <= limit && limit - start < U32 && limit + 2 * U32 <= SPACE
    }

    ghost predicate Ok()
      reads this, regions
    {
      Sized() && ArenaOk(regions[..count], start, watermark, live, dropped)
    }

    ghost function Free(): seq<Extent>
      requires count <= regions.Length
      reads this, regions
    {
      regions[..count]
    }

    /** init. */
    constructor (start: nat, limit: nat)
      requires 0 < start <= limit && limit - start < U32 && limit + 2 * U32 <= SPACE
      ensures Ok() && Free() == [] && watermark == start && this.limit == limit && live == {} && dropped == {}
      ensures fresh(regions)
    {
      regions := new Extent[MAX_REGIONS];
      count, watermark, this.limit, this.start := 0, start, limit, start;
      live, dropped := {}, {};
      new;
      assert forall p :: PageOk(regions[..count], start, watermark, live, dropped, p);
    }

    /** A region loses a run: what remains of it stays free, except an upper part that finds
        the table full. */
    ghost method Account(s: seq<Extent>, i: nat, a: nat, n: nat, room: bool)
      requires Sized() && ArenaOk(s, start, watermark, live, dropped) && i < |s|
      requires n > 0 && s[i].start <= a && a + n <= End(s[i]) && Free() == Replaced(s, i, Remains(s[i], a, n, room))
      modifies this`live, this`dropped
      ensures Ok() && live == old(live) + RunSet(a, n) && old(live) !! RunSet(a, n)
      ensures dropped == old(dropped) + Lost(s[i], a, n, room)
    {
      RemainsIs(s, i, a, n, room);
      TakeKeeps(s, Free(), start, watermark, live, dropped, a, n, Lost(s[i], a, n, room));
      live, dropped := live + RunSet(a, n), dropped + Lost(s[i], a, n, room);
    }

    /** alloc's stores into the region it found, in the widths of the source. */
    method TakeFront(i: nat, pages: nat) returns (base: nat)
      requires Ok() && i < count && pages > 0 && regions[i].count >= pages % U32
      modifies this`count, this`live, this`dropped, regions
      ensures base == old(regions[i].start) && start <= base && count <= old(count)
      ensures pages < U32 ==> Ok() && live == old(live) + RunSet(base, pages) && old(live) !! RunSet(base, pages)
      ensures pages < U32 ==> base + pages <= watermark && dropped == old(dropped)
    {
      ghost var s := Free();
      RegionSmall(s, start, watermark, live, dropped, i);
      base := regions[i].start;
      var want := pages % U32;
      if regions[i].count == want {
        RemoveExtent(regions, count, i);
        count := count - 1;
      } else {
        regions[i] := Extent((base + pages) % SPACE, regions[i].count - want);
      }
      if pages < U32 {
        FrontReplaced(s, i, pages);
        Account(s, i, base, pages, true);
      }
    }

    /** alloc. A request that does not overflow gets pages that were not live, and null only
        if no region and no tail space can hold it; one that overflows is granted pages past
        the end of the arena. */
    method Alloc(pages: nat) returns (r: nat)
      requires Ok()
      modifies this`count, this`watermark, this`live, this`dropped, regions
      ensures r != 0 && !old(Truncates(Free(), watermark, limit, pages)) ==>
          && Ok() && r + pages <= limit && live == old(live) + RunSet(r, pages) && old(live) !! RunSet(r, pages)
          && dropped == old(dropped)
      ensures r == 0 ==> Ok() && live == old(live) && dropped == old(dropped) && Free() == old(Free()) && watermark == old(watermark)
      ensures r == 0 ==> pages == 0 || (old(NoAlignedRunIn(Free(), pages, 1)) && old(watermark) + pages > limit)
      ensures old(Truncates(Free(), watermark, limit, pages)) ==> r != 0 && r + pages > limit
      ensures r != 0 && pages < U32 ==>
          && (forall i | FirstFit(old(Free()), pages, i) :: r == old(Free())[i].start && watermark == old(watermark))
          && ((forall i | 0 <= i < |old(Free())| :: old(Free())[i].count < pages) ==> r == old(watermark) && watermark == r + pages)
      ensures count <= old(count)
    {
      if pages == 0 {
        return 0;
      }
      ghost var s := Free();
      var want := pages % U32;
      for i := 0 to count
        invariant Ok() && live == old(live) && dropped == old(dropped) && Free() == s && watermark == old(watermark) && count == old(count)
        invariant forall k | 0 <= k < i :: s[k].count < want
      {
        assert regions[i] == s[i];
        if regions[i].count >= want {
          r := TakeFront(i, pages);
          return;
        }
      }
      NoRunOf(s, start, watermark, live, dropped, pages);
      var base, next := watermark, (watermark + pages) % SPACE;
      if next > limit || next < base {
        return 0;
      }
      watermark := next;
      if pages < U32 {
        TailKeeps(s, s, start, base, live, dropped, base, pages, {});
        assert dropped + {} == dropped;
        live := live + RunSet(base, pages);
      }
      return base;
    }

    /** alloc_aligned's stores into the region it found. */
    method SplitRegion(i: nat, a: nat, n: nat, need: nat)
      requires Ok() && i < count && n > 0 && regions[i].start <= a && need == a - regions[i].start + n && CountFits(regions[i].count, need)
      modifies this`count, this`live, this`dropped, regions
      ensures count <= old(count) + 1 && count <= MAX_REGIONS && start <= a
      ensures need < U32 ==>
          && Ok() && live == old(live) + RunSet(a, n) && old(live) !! RunSet(a, n) && a + n <= watermark
          && old(dropped) <= dropped && (old(count) < MAX_REGIONS ==> dropped == old(dropped))
      ensures need >= U32 ==> a + n > limit
    {
      ghost var s := Free();
      RegionSmall(s, start, watermark, live, dropped, i);
      var m := SplitArray(regions, count, i, a, n, need);
      count := m;
      if need < U32 {
        Account(s, i, a, n, old(count) < MAX_REGIONS);
      }
    }

    /** The part of alloc_aligned that moves the watermark: the gap below the aligned page
        becomes free, unless the table is full. */
    method TakeTail(a: nat, n: nat)
      requires Ok() && watermark <= a && a - watermark < U32 && TailFits(a, n, limit) && n > 0
      modifies this`count, this`watermark, this`live, this`dropped, regions
      ensures count <= old(count) + 1 && count <= MAX_REGIONS && watermark == (a + n) % SPACE
      ensures a + n <= limit ==>
          && Ok() && live == old(live) + RunSet(a, n) && old(live) !! RunSet(a, n)
          && old(dropped) <= dropped && (old(count) < MAX_REGIONS ==> dropped == old(dropped))
    {
      ghost var s := Free();
      ghost var lost := if a > watermark && count == MAX_REGIONS then RunSet(watermark, a - watermark) else {};
      if a > watermark {
        if count < MAX_REGIONS {
          BelowWatermark(s, start, watermark, live, dropped);
          count := FreeAt(regions, count, Extent(watermark, (a - watermark) % U32));
        }
      }
      if a + n <= limit {
        TailKeeps(s, Free(), start, watermark, live, dropped, a, n, lost);
      }
      watermark := (a + n) % SPACE;
      if a + n <= limit {
        live, dropped := live + RunSet(a, n), dropped + lost;
      }
    }

    /** alloc_aligned's search. */
    method FindAligned(pages: nat, align: nat) returns (i: nat, a: nat)
      requires Ok() && pages > 0 && IsPow2(align) && align <= U32
      ensures i <= count && 0 < align <= TOP
      ensures i == count ==> NoAlignedRunIn(Free(), pages, align) && forall k | 0 <= k < count :: !Passes(Free()[k], pages, align)
      ensures i < count ==> FirstPass(Free(), pages, align, i) && a == AlignUp(regions[i].start, align)
      ensures i < count ==> a % align == 0 && 0 < regions[i].start <= a
    {
      ghost var s := Free();
      RoomToAlign(s, align);
      i, a := 0, 0;
      while i < count
        invariant i <= count && forall k | 0 <= k < i :: !Fits(s[k], pages, align) && !Passes(s[k], pages, align)
      {
        assert regions[i] == s[i];
        RegionSmall(s, start, watermark, live, dropped, i);
        var ok;
        ok, a := TryAligned(regions[i], pages, align);
        if ok {
          return;
        }
        i := i + 1;
      }
      NoneFit(s, pages, align);
    }

    method TailStart(align: nat) returns (a: nat)
      requires Sized() && IsPow2(align) && align <= U32
      ensures 0 < align <= TOP && watermark + align <= TOP
      ensures a == AlignUp(watermark, align) && a % align == 0 && watermark <= a < watermark + align
    {
      AlignPagesIs(watermark, align);
      a := AlignPages(watermark, align);
    }

    /** No free region and no tail space can hold an aligned run. */
    ghost predicate Refuses(pages: nat, align: nat)
      requires count <= regions.Length && align > 0
      reads this, regions
    {
      NoAlignedRunIn(Free(), pages, align) && NoTail(watermark, limit, pages, align)
    }

    /** What a grant of alloc_aligned means. */
    twostate predicate GrantedAligned(r: nat, pages: nat, align: nat)
      reads this, regions
    {
      && Ok() && align > 0 && r % align == 0 && r + pages <= limit
      && live == old(live) + RunSet(r, pages) && old(live) !! RunSet(r, pages)
      && old(dropped) <= dropped && (old(count) < MAX_REGIONS ==> dropped == old(dropped))
    }

    /** alloc_aligned's second half: no region passed the test. */
    method AllocTail(pages: nat, align: nat) returns (r: nat)
      requires Ok() && pages > 0 && IsPow2(align) && align <= U32
      modifies this`count, this`watermark, this`live, this`dropped, regions
      ensures count <= old(count) + 1 && 0 < align <= TOP
      ensures r != 0 && r + pages > limit <==>
          TailFits(AlignUp(old(watermark), align), pages, limit) && limit < AlignUp(old(watermark), align) + pages
      ensures r != 0 && r + pages <= limit ==> GrantedAligned(r, pages, align)
      ensures r == 0 ==> Ok() && live == old(live) && dropped == old(dropped) && Free() == old(Free()) && watermark == old(watermark)
      ensures r == 0 ==> NoTail(old(watermark), limit, pages, align)
      ensures r != 0 && r + pages <= limit ==> !NoTail(old(watermark), limit, pages, align)
    {
      var aligned := TailStart(align);
      if !TailFits(aligned, pages, limit) {
        TailTooSmall(watermark, limit, pages, align);
        return 0;
      }
      assert aligned + pages <= limit ==> !NoTail(watermark, limit, pages, align);
      TakeTail(aligned, pages);
      return aligned;
    }

    /** alloc_aligned's first half: region i passed the test. */
    method TakeAligned(i: nat, a: nat, pages: nat, align: nat)
      requires Ok() && pages > 0 && 0 < align <= TOP && i < count && FirstPass(Free(), pages, align, i)
      requires a == AlignUp(regions[i].start, align) && a % align == 0 && 0 < regions[i].start <= a
      modifies this`count, this`live, this`dropped, regions
      ensures count <= old(count) + 1
      ensures old(Overflows(Free(), watermark, limit, pages, align)) <==> a + pages > limit
      ensures a + pages <= limit ==> GrantedAligned(a, pages, align) && !old(NoAlignedRunIn(Free(), pages, align))
    {
      FirstPassOnly(Free(), watermark, limit, pages, align, i);
      PassHasRun(Free(), pages, align, i);
      assert Free()[i] == regions[i] && Passes(regions[i], pages, align);
      SplitRegion(i, a, pages, Need(regions[i], pages, align));
    }

    /** alloc_aligned. A request that does not overflow gets an aligned run of pages that were
        not live, from a region whenever one can hold it; null only if no region and no tail
        space can. One that overflows is granted pages past the end of the arena. */
    method AllocAligned(pages: nat, align: nat) returns (r: nat)
      requires Ok() && (align == 0 || (IsPow2(align) && align <= U32))
      modifies this`count, this`watermark, this`live, this`dropped, regions
      ensures count <= old(count) + 1 && (align > 0 ==> align <= TOP)
      ensures pages > 0 && align > 0 ==> (old(Overflows(Free(), watermark, limit, pages, align)) <==> r != 0 && r + pages > limit)
      ensures r != 0 && r + pages <= limit ==> GrantedAligned(r, pages, align)
      ensures r != 0 && r + pages <= limit && !old(NoAlignedRunIn(Free(), pages, align)) ==> watermark == old(watermark)
      ensures r == 0 ==> Ok() && live == old(live) && dropped == old(dropped) && Free() == old(Free()) && watermark == old(watermark)
      ensures r == 0 ==> pages == 0 || align == 0 || old(Refuses(pages, align))
      ensures r != 0 && r + pages <= limit ==> !old(Refuses(pages, align))
    {
      if pages == 0 || align == 0 {
        return 0;
      }
      var i, aligned := FindAligned(pages, align);
      if i < count {
        TakeAligned(i, aligned, pages, align);
        return aligned;
      }
      r := AllocTail(pages, align);
    }

    /** free of a live run. With a full table the insertion would store past its end, even next
        to a free region: the forced coalescing finds nothing to merge. */
    method FreeRun(base: nat, pages: nat) returns (overrun: bool)
      requires Ok() && (base != 0 && pages != 0 ==> RunSet(base, pages) <= live)
      modifies this`count, this`live, regions
      ensures overrun <==> base != 0 && pages != 0 && old(count) == MAX_REGIONS
      ensures Ok() && live == old(live) - (if base == 0 || overrun then {} else RunSet(base, pages)) && dropped == old(dropped)
      ensures count <= old(count) + 1 && (overrun ==> Free() == old(Free()))
      ensures base != 0 && !overrun ==> forall f :: Covers(Free(), f) <==> Covers(old(Free()), f) || base <= f < base + pages
    {
      overrun := false;
      if base == 0 || pages == 0 {
        return;
      }
      ghost var s := Free();
      if count >= MAX_REGIONS - 2 {
        NothingToCoalesce(s, count - 1);
        count := Coalesce(regions, count, count - 1);
      }
      assert Free() == s;
      if count == MAX_REGIONS {
        return true;
      }
      LiveRun(s, start, watermark, live, dropped, base, pages);
      var pg := if pages > U32 - 1 then U32 - 1 else pages;
      count := FreeAt(regions, count, Extent(base, pg));
      FreeKeeps(s, Free(), start, watermark, live, dropped, base, pages);
      live := live - RunSet(base, pages);
    }
  }

  /** Two calls on a fresh arena, one page and its free, reach a state in which a request of
      2^32 pages overflows, aligned or not. */
  method OverflowReached() returns (arena: VmArena)
    ensures arena.Ok() && Truncates(arena.Free(), arena.watermark, arena.limit, U32)
    ensures Overflows(arena.Free(), arena.watermark, arena.limit, U32, 1)
  {
    arena := new VmArena(1, 10);
    var one := arena.Alloc(1);
    assert one != 0 && one in RunSet(one, 1);
    var overrun := arena.FreeRun(one, 1);
    ghost var s := arena.Free();
    assert Covers(s, one);
    RegionSmall(s, arena.start, arena.watermark, arena.live, arena.dropped, 0);
    assert Pow2(0) == 1 && IsPow2(1);
    AlignPagesIs(s[0].start, 1);
    assert FirstPass(s, U32, 1, 0);
    assert s[0].count >= U32 % U32;
  }

  /** n single pages, every second one from page 1 on. */
  function EverySecond(n: nat): seq<Extent> { seq(n, (i: nat) => Extent(1 + 2 * i, 1)) }

  lemma EverySecondIs(n: nat, f: int)
    ensures Canonical(EverySecond(n)) && (Covers(EverySecond(n), f) <==> 1 <= f < 1 + 2 * n && f % 2 == 1)
  {
    var s := EverySecond(n);
    if 1 <= f < 1 + 2 * n && f % 2 == 1 { assert In(s[(f - 1) / 2], f); }
  }

  /** n pages of a fresh arena, allocated one by one. */
  method Fill(n: nat) returns (arena: VmArena)
    requires n < U32
    ensures fresh(arena) && fresh(arena.regions) && arena.Ok() && arena.Free() == [] && arena.live == RunSet(1, n) && arena.count == 0
  {
    arena := new VmArena(1, 1 + n);
    assert RunSet(1, 0) == {};
    for i := 0 to n
      invariant arena.Ok() && arena.count == 0 && arena.watermark == 1 + i && arena.limit == 1 + n && arena.live == RunSet(1, i)
      invariant fresh(arena) && fresh(arena.regions)
    {
      var r := arena.Alloc(1);
      assert RunSet(1, i + 1) == RunSet(1, i) + RunSet(1 + i, 1);
    }
  }

  /** free does run past the table: after 1024 single pages, every second one freed, the table
      is full and pages are live. */
  method FullTableReached() returns (arena: VmArena)
    ensures arena.Ok() && arena.count == MAX_REGIONS && 2 in arena.live
  {
    arena := Fill(2 * MAX_REGIONS);
    for i := 0 to MAX_REGIONS
      invariant arena.Ok() && arena.Free() == EverySecond(i)
      invariant forall f :: f in arena.live <==> f in RunSet(1, 2 * MAX_REGIONS) && (f > 2 * i || f % 2 == 0)
      invariant fresh(arena) && fresh(arena.regions)
    {
      var page := 1 + 2 * i;
      assert RunSet(page, 1) == {page};
      var overrun := arena.FreeRun(page, 1);
      forall f ensures Covers(arena.Free(), f) <==> Covers(EverySecond(i + 1), f) {
        EverySecondIs(i, f);
        EverySecondIs(i + 1, f);
      }
      CanonicalUnique(arena.Free(), EverySecond(i + 1));
    }
  }
}
