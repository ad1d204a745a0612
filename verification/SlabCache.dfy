/** One size class of the kernel heap, class SlabCache of archs/memory/kheap_slab.cpp. */
module SlabCache {
  import opened Bits
  import opened Common
  import opened Counting
  import opened SlabLists
  import VmArena

  const PAGE_SIZE := 4096

  /** sizeof(Slab). */
  const HEADER := 48

  /** A slab header but for its list links. The free list starts at freeList and runs through
      the free objects. */
  datatype Slab = Slab(freeList: Addr, used: nat, total: nat, pages: nat)
  type Slabs = map<Addr, Slab>

  // ---------------------------------------------------------------- geometry

  function SlabPages(size: nat): nat { if size > 2048 then 2 else 1 }
  function SlabBytes(size: nat): nat { SlabPages(size) * PAGE_SIZE }

  /** The object sizes for which a slab holds at least one object. */
  predicate SizeOk(size: nat) { 16 <= size <= SlabBytes(size) - HEADER }

  function Capacity(size: nat): nat
    requires SizeOk(size)
  {
    (SlabBytes(size) - HEADER) / size
  }

  function ObjAt(a: Addr, k: nat, size: nat): Addr { a + HEADER + k * size }

  /** o is one of the objects of slab a. */
  predicate IsObj(o: Addr, a: Addr, size: nat)
    requires size > 0
  {
    a + HEADER <= o && o + size <= a + SlabBytes(size) && (o - a - HEADER) % size == 0
  }

  predicate Aligned(a: Addr, size: nat) { a % SlabBytes(size) == 0 && a + SlabBytes(size) <= 0x1_0000_0000_0000_0000 }

  lemma ObjAtIsObj(a: Addr, k: nat, size: nat)
    requires SizeOk(size) && k < Capacity(size)
    ensures IsObj(ObjAt(a, k, size), a, size)
  {
    MulMono(size, k + 1, Capacity(size));
    assert size * (k + 1) == k * size + size;
    ModUnique(k * size, size, k, 0);
  }

  /** The first object starts right after the header: nothing is lost to alignment. */
  lemma DataStart(a: Addr, size: nat)
    requires Aligned(a, size)
    ensures 0 < 16 <= TOP && AlignUp(a + HEADER, 16) == a + HEADER
  {
    assert a % 16 == 0;
    assert Pow2(4) == 16;
    AlignUpIs(a + HEADER, 16);
    AlignUpIsLeast(a + HEADER, 16, a + HEADER);
  }

  /** Masking an object's address gives its slab, because alloc_aligned aligned the slab. */
  lemma MaskFindsSlab(o: Addr, a: Addr, size: nat)
    requires SizeOk(size) && Aligned(a, size) && IsObj(o, a, size)
    ensures 0 < SlabBytes(size) <= TOP && MaskLow(o, SlabBytes(size)) == a
  {
    assert Pow2(12) == 4096 && Pow2(13) == 8192;
    assert IsPow2(SlabBytes(size));
    MaskLowIs(o, SlabBytes(size));
    var b := SlabBytes(size);
    assert a == b * (a / b);
    ModUnique(o, b, a / b, o - a);
  }

  /** Two objects of aligned slabs overlap only if they are the same object, */
  lemma ObjectsApart(o: Addr, a: Addr, o2: Addr, a2: Addr, size: nat)
    requires SizeOk(size) && Aligned(a, size) && Aligned(a2, size) && IsObj(o, a, size) && IsObj(o2, a2, size) && o != o2
    ensures o + size <= o2 || o2 + size <= o
  {
    if a == a2 {
      var x, y := o - a - HEADER, o2 - a - HEADER;
      if x < y { MultiplesApart(x, y, size); } else { MultiplesApart(y, x, size); }
    } else if a < a2 {
      MultiplesApart(a, a2, SlabBytes(size));
    } else {
      MultiplesApart(a2, a, SlabBytes(size));
    }
  }

  /** and no object overlaps any slab's header. */
  lemma HeaderApart(o: Addr, a: Addr, a2: Addr, size: nat)
    requires SizeOk(size) && Aligned(a, size) && Aligned(a2, size) && IsObj(o, a, size)
    ensures o + size <= a2 || a2 + HEADER <= o
  {
    if a < a2 {
      MultiplesApart(a, a2, SlabBytes(size));
    } else if a2 < a {
      MultiplesApart(a2, a, SlabBytes(size));
    }
  }

  // ---------------------------------------------------------------- free lists

  /** The first words of the objects, which link the free ones. */
  type Words = map<Addr, Addr>

  ghost predicate FreeAt(w: Words, fs: seq<Addr>, i: int, a: Addr, size: nat)
    requires size > 0
  {
    0 <= i < |fs| && fs[i] != NULL && IsObj(fs[i], a, size) && fs[i] in w && w[fs[i]] == After(fs, i)
  }

  /** A slab's free list: total - used distinct objects of that slab. */
  ghost predicate BodyOk(w: Words, x: Slab, fs: seq<Addr>, a: Addr, size: nat)
    requires SizeOk(size)
  {
    && x.pages == SlabPages(size) && x.total == Capacity(size) && x.used + |fs| == x.total
    && x.freeList == First(fs) && Distinct(fs)
    && forall i | 0 <= i < |fs| :: FreeAt(w, fs, i, a, size)
  }

  lemma PopBody(w: Words, x: Slab, fs: seq<Addr>, a: Addr, size: nat)
    requires SizeOk(size) && BodyOk(w, x, fs, a, size) && fs != []
    ensures x.freeList == fs[0] && fs[0] != NULL && fs[0] in w && IsObj(fs[0], a, size) && fs[0] !in fs[1..]
    ensures BodyOk(w, x.(freeList := w[fs[0]], used := x.used + 1), fs[1..], a, size)
    ensures w[fs[0]] == NULL <==> x.used + 1 == x.total
  {
    assert FreeAt(w, fs, 0, a, size) && (|fs| > 1 ==> FreeAt(w, fs, 1, a, size));
    forall i | 0 <= i < |fs| - 1 ensures FreeAt(w, fs[1..], i, a, size) { assert FreeAt(w, fs, i + 1, a, size); }
  }

  lemma PushBody(w: Words, x: Slab, fs: seq<Addr>, a: Addr, size: nat, o: Addr)
    requires SizeOk(size) && BodyOk(w, x, fs, a, size) && IsObj(o, a, size) && o != NULL && o !in fs && x.used > 0
    ensures BodyOk(w[o := x.freeList], x.(freeList := o, used := x.used - 1), [o] + fs, a, size)
  {
    var w', t := w[o := x.freeList], [o] + fs;
    forall i | 0 <= i < |t| ensures FreeAt(w', t, i, a, size) {
      if i > 0 { assert FreeAt(w, fs, i - 1, a, size) && t[i] == fs[i - 1] != o; }
    }
  }

  /** Stores into words that are not in the free list keep it. */
  lemma WordKeeps(w: Words, x: Slab, fs: seq<Addr>, a: Addr, size: nat, o: Addr, v: Addr)
    requires SizeOk(size) && BodyOk(w, x, fs, a, size) && o !in fs
    ensures BodyOk(w[o := v], x, fs, a, size)
  {
    var w' := w[o := v];
    forall i | 0 <= i < |fs| ensures FreeAt(w', fs, i, a, size) { assert FreeAt(w, fs, i, a, size); }
  }

  // ---------------------------------------------------------------- objects

  /** For each slab its free objects, and for each live object its slab. */
  type Frees = map<Addr, seq<Addr>>
  type Live = map<Addr, Addr>

  ghost predicate SlabOk(m: Slabs, w: Words, frees: Frees, a: Addr, size: nat)
    requires SizeOk(size)
  {
    a in m && a in frees && a != NULL && Aligned(a, size) && BodyOk(w, m[a], frees[a], a, size)
  }

  ghost predicate LiveOk(m: Slabs, frees: Frees, live: Live, o: Addr, size: nat)
    requires SizeOk(size)
  {
    o in live && live[o] in m && live[o] in frees && IsObj(o, live[o], size) && o !in frees[live[o]]
  }

  /** An object of slab a is either free or live. */
  ghost predicate ObjOk(frees: Frees, live: Live, o: Addr, a: Addr) {
    a in frees && (o in frees[a] || (o in live && live[o] == a))
  }

  ghost predicate Objects(m: Slabs, w: Words, frees: Frees, live: Live, size: nat)
    requires SizeOk(size)
  {
    && frees.Keys == m.Keys
    && (forall a | a in m :: SlabOk(m, w, frees, a, size))
    && (forall o | o in live :: LiveOk(m, frees, live, o, size))
    && (forall o, a | a in m && IsObj(o, a, size) :: ObjOk(frees, live, o, a))
  }

  lemma OneSlab(o: Addr, a: Addr, b: Addr, size: nat)
    requires SizeOk(size) && Aligned(a, size) && Aligned(b, size) && IsObj(o, a, size) && IsObj(o, b, size)
    ensures a == b
  {
    MaskFindsSlab(o, a, size);
    MaskFindsSlab(o, b, size);
  }

  /** An object of slab a is in no other slab's free list. */
  lemma NotInOther(m: Slabs, w: Words, frees: Frees, live: Live, size: nat, o: Addr, a: Addr, b: Addr)
    requires SizeOk(size) && Objects(m, w, frees, live, size) && a in m && b in m && a != b && IsObj(o, a, size)
    ensures o !in frees[b]
  {
    assert SlabOk(m, w, frees, a, size) && SlabOk(m, w, frees, b, size);
    if o in frees[b] {
      var i :| 0 <= i < |frees[b]| && frees[b][i] == o;
      assert FreeAt(w, frees[b], i, b, size);
      OneSlab(o, a, b, size);
    }
  }

  /** The stores of alloc that take the first free object of a slab. */
  lemma PopKeeps(m: Slabs, w: Words, frees: Frees, live: Live, size: nat, a: Addr)
    requires SizeOk(size) && Objects(m, w, frees, live, size) && a in m && frees[a] != []
    ensures var o := frees[a][0];
            && m[a].freeList == o && o != NULL && o in w && o !in live && IsObj(o, a, size) && Aligned(a, size)
            && (w[o] == NULL <==> m[a].used + 1 == m[a].total) && m[a].used < m[a].total
            && Objects(m[a := m[a].(freeList := w[o], used := m[a].used + 1)], w, frees[a := frees[a][1..]], live[o := a], size)
  {
    assert SlabOk(m, w, frees, a, size);
    var o, fs := frees[a][0], frees[a];
    PopBody(w, m[a], fs, a, size);
    if o in live { assert LiveOk(m, frees, live, o, size); assert SlabOk(m, w, frees, live[o], size); OneSlab(o, a, live[o], size); }
    var m', frees', live' := m[a := m[a].(freeList := w[o], used := m[a].used + 1)], frees[a := fs[1..]], live[o := a];
    forall b | b in m' ensures SlabOk(m', w, frees', b, size) { assert SlabOk(m, w, frees, b, size); }
    forall x | x in live' ensures LiveOk(m', frees', live', x, size) {
      if x != o { assert LiveOk(m, frees, live, x, size); }
    }
    forall x, b | b in m' && IsObj(x, b, size) ensures ObjOk(frees', live', x, b) {
      assert ObjOk(frees, live, x, b);
      if x == o { assert SlabOk(m, w, frees, b, size); OneSlab(o, a, b, size); }
    }
  }

  /** The stores of free that put an object back. */
  lemma PushKeeps(m: Slabs, w: Words, frees: Frees, live: Live, size: nat, o: Addr)
    requires SizeOk(size) && Objects(m, w, frees, live, size) && o in live && live[o] in m && o != NULL
    requires m[live[o]].used > 0
    ensures var a := live[o];
            Objects(m[a := m[a].(freeList := o, used := m[a].used - 1)], w[o := m[a].freeList], frees[a := [o] + frees[a]], live - {o}, size)
  {
    var a := live[o];
    assert LiveOk(m, frees, live, o, size) && SlabOk(m, w, frees, a, size);
    PushBody(w, m[a], frees[a], a, size, o);
    var m', w' := m[a := m[a].(freeList := o, used := m[a].used - 1)], w[o := m[a].freeList];
    var frees', live' := frees[a := [o] + frees[a]], live - {o};
    forall b | b in m' ensures SlabOk(m', w', frees', b, size) {
      assert SlabOk(m, w, frees, b, size);
      if b != a {
        NotInOther(m, w, frees, live, size, o, a, b);
        WordKeeps(w, m[b], frees[b], b, size, o, m[a].freeList);
      }
    }
    forall x | x in live' ensures LiveOk(m', frees', live', x, size) { assert LiveOk(m, frees, live, x, size); }
    forall x, b | b in m' && IsObj(x, b, size) ensures ObjOk(frees', live', x, b) {
      assert ObjOk(frees, live, x, b);
      if x == o { assert SlabOk(m, w, frees, b, size); OneSlab(o, a, b, size); }
    }
  }

  /** So alloc's corruption test never fires. */
  lemma InsideSlab(m: Slabs, w: Words, frees: Frees, live: Live, size: nat, a: Addr, o: Addr)
    requires SizeOk(size) && Objects(m, w, frees, live, size) && a in m && IsObj(o, a, size)
    ensures a <= o < a + m[a].pages * PAGE_SIZE
  {
    assert SlabOk(m, w, frees, a, size);
  }

  /** A live object's slab is in use. */
  lemma LiveUsed(m: Slabs, w: Words, frees: Frees, live: Live, size: nat, o: Addr)
    requires SizeOk(size) && Objects(m, w, frees, live, size) && o in live && live[o] in m
    ensures m[live[o]].used > 0
  {
    var a := live[o];
    assert LiveOk(m, frees, live, o, size) && SlabOk(m, w, frees, a, size);
    if m[a].used == 0 { AllFree(w, m[a], frees[a], a, size, o); }
  }

  function Index(o: Addr, a: Addr, size: nat): nat
    requires SizeOk(size) && IsObj(o, a, size)
  {
    (o - a - HEADER) / size
  }

  lemma IndexIs(o: Addr, a: Addr, size: nat)
    requires SizeOk(size) && IsObj(o, a, size)
    ensures Index(o, a, size) < Capacity(size) && o == ObjAt(a, Index(o, a, size), size)
  {
    var x, k := o - a - HEADER, Index(o, a, size);
    assert x == size * k && size * (k + 1) == x + size;
    DivAtLeast(SlabBytes(size) - HEADER, size, k + 1);
  }

  /** If all of a slab's objects are counted free, each one is in the free list. */
  lemma AllFree(w: Words, x: Slab, fs: seq<Addr>, a: Addr, size: nat, o: Addr)
    requires SizeOk(size) && BodyOk(w, x, fs, a, size) && x.used == 0 && IsObj(o, a, size)
    ensures o in fs
  {
    forall i | 0 <= i < |fs| ensures IsObj(fs[i], a, size) { assert FreeAt(w, fs, i, a, size); }
    var ks := seq(|fs|, i requires 0 <= i < |fs| => Index(fs[i], a, size));
    forall i | 0 <= i < |fs| ensures ks[i] < |ks| && fs[i] == ObjAt(a, ks[i], size) { IndexIs(fs[i], a, size); }
    IndexIs(o, a, size);
    AllBelow(ks, Index(o, a, size));
    var i :| 0 <= i < |ks| && ks[i] == Index(o, a, size);
    assert fs[i] == o;
  }

  /** An object of slab a is in use. */
  ghost predicate InUse(live: Live, o: Addr, a: Addr) { o in live && live[o] == a }

  /** A slab's count is 0 exactly if none of its objects is in use. */
  lemma UnusedExactly(m: Slabs, w: Words, frees: Frees, live: Live, size: nat, a: Addr)
    requires SizeOk(size) && Objects(m, w, frees, live, size) && a in m
    ensures m[a].used == 0 <==> forall o :: !InUse(live, o, a)
  {
    assert SlabOk(m, w, frees, a, size);
    forall o | InUse(live, o, a) ensures m[a].used > 0 { LiveUsed(m, w, frees, live, size, o); }
    if forall o :: !InUse(live, o, a) {
      var all, fs := AllObjs(a, size), frees[a];
      forall k | 0 <= k < |all| ensures all[k] in fs {
        ObjAtIsObj(a, k, size);
        assert ObjOk(frees, live, all[k], a) && !InUse(live, all[k], a);
      }
      AllObjsDistinct(a, size);
      DistinctCard(all);
      DistinctCard(fs);
      assert Elements(all) <= Elements(fs);
      assert Elements(fs) == Elements(all) + (Elements(fs) - Elements(all));
    }
  }

  /** And its capacity exactly if all of them are. */
  lemma UsedUpExactly(m: Slabs, w: Words, frees: Frees, live: Live, size: nat, a: Addr)
    requires SizeOk(size) && Objects(m, w, frees, live, size) && a in m
    ensures m[a].used == m[a].total <==> forall o | IsObj(o, a, size) :: InUse(live, o, a)
  {
    assert SlabOk(m, w, frees, a, size);
    var fs := frees[a];
    if fs == [] {
      forall o | IsObj(o, a, size) ensures InUse(live, o, a) { assert ObjOk(frees, live, o, a); }
    } else {
      assert FreeAt(w, fs, 0, a, size);
      assert fs[0] in live ==> LiveOk(m, frees, live, fs[0], size);
      assert fs[0] in fs && !InUse(live, fs[0], a);
    }
  }

  // ---------------------------------------------------------------- creation

  /** Object k links to object k + 1, the last one to nothing. */
  predicate ThreadedAt(w: Words, a: Addr, size: nat, total: nat, k: nat) {
    ObjAt(a, k, size) in w && w[ObjAt(a, k, size)] == if k + 1 < total then ObjAt(a, k + 1, size) else NULL
  }

  /** createSlab's loop that threads the free list through the objects. */
  method ThreadObjects(w: Words, a: Addr, size: nat, total: nat) returns (w': Words)
    requires total > 0 && size > 0
    ensures w'.Keys >= w.Keys
    ensures forall o | o in w && (forall k: nat | k < total :: o != ObjAt(a, k, size)) :: w'[o] == w[o]
    ensures forall k: nat | k < total :: ThreadedAt(w', a, size, total, k)
  {
    w' := w;
    var ptr := a + HEADER;
    for i := 0 to total - 1
      invariant ptr == ObjAt(a, i, size) && w'.Keys >= w.Keys
      invariant forall o | o in w && (forall k: nat | k < i :: o != ObjAt(a, k, size)) :: w'[o] == w[o]
      invariant forall k: nat | k < i :: ThreadedAt(w', a, size, total, k)
    {
      ObjStep(a, i, size);
      ghost var v := w';
      w' := w'[ptr := ptr + size];
      forall k: nat | k < i ensures ThreadedAt(w', a, size, total, k) { assert ThreadedAt(v, a, size, total, k); }
      assert ThreadedAt(w', a, size, total, i);
      ptr := ptr + size;
    }
    ObjStep(a, total - 1, size);
    ghost var v := w';
    w' := w'[ptr := NULL];
    forall k: nat | k < total - 1 ensures ThreadedAt(w', a, size, total, k) { assert ThreadedAt(v, a, size, total, k); }
    assert ThreadedAt(w', a, size, total, total - 1);
  }

  lemma ObjStep(a: Addr, k: nat, size: nat)
    ensures ObjAt(a, k + 1, size) == ObjAt(a, k, size) + size
    ensures size > 0 ==> forall j: nat | j < k :: ObjAt(a, j, size) < ObjAt(a, k, size)
  {
    assert (k + 1) * size == k * size + size;
    forall j: nat | j < k && size > 0 ensures ObjAt(a, j, size) < ObjAt(a, k, size) {
      assert k * size == j * size + (k - j) * size;
      assert (k - j) * size > 0;
    }
  }

  /** All objects of a slab, in address order. */
  ghost function AllObjs(a: Addr, size: nat): (fs: seq<Addr>)
    requires SizeOk(size)
    ensures |fs| == Capacity(size) && forall k | 0 <= k < |fs| :: fs[k] == ObjAt(a, k, size)
  {
    seq(Capacity(size), k requires k >= 0 => ObjAt(a, k, size))
  }

  lemma AllObjsDistinct(a: Addr, size: nat)
    requires SizeOk(size)
    ensures Distinct(AllObjs(a, size))
  {
    var fs := AllObjs(a, size);
    forall i, j | 0 <= i < j < |fs| ensures fs[i] != fs[j] { ObjStep(a, j, size); }
  }

  /** A fresh slab: every object free, in order. */
  lemma FreshBody(w: Words, a: Addr, size: nat, x: Slab)
    requires SizeOk(size) && a != NULL && forall k: nat | k < Capacity(size) :: ThreadedAt(w, a, size, Capacity(size), k)
    requires x.pages == SlabPages(size) && x.total == Capacity(size) && x.used == 0 && x.freeList == ObjAt(a, 0, size)
    ensures BodyOk(w, x, AllObjs(a, size), a, size)
  {
    var fs := AllObjs(a, size);
    forall i | 0 <= i < |fs| ensures FreeAt(w, fs, i, a, size) {
      ObjAtIsObj(a, i, size);
      assert ThreadedAt(w, a, size, Capacity(size), i);
    }
    AllObjsDistinct(a, size);
    CapacityPositive(size);
  }

  lemma CapacityPositive(size: nat)
    requires SizeOk(size)
    ensures Capacity(size) > 0
  {
  }

  lemma CreateKeeps(m: Slabs, w: Words, w': Words, frees: Frees, live: Live, size: nat, a: Addr, x: Slab)
    requires SizeOk(size) && Objects(m, w, frees, live, size) && a !in m && a != NULL && Aligned(a, size)
    requires w'.Keys >= w.Keys && BodyOk(w', x, AllObjs(a, size), a, size)
    requires forall o | o in w && (forall k: nat | k < Capacity(size) :: o != ObjAt(a, k, size)) :: w'[o] == w[o]
    ensures Objects(m[a := x], w', frees[a := AllObjs(a, size)], live, size)
  {
    var m', frees' := m[a := x], frees[a := AllObjs(a, size)];
    forall b | b in m' ensures SlabOk(m', w', frees', b, size) {
      if b != a {
        assert SlabOk(m, w, frees, b, size);
        OtherWords(m, w, w', frees[b], size, a, b);
      }
    }
    forall o | o in live ensures LiveOk(m', frees', live, o, size) { assert LiveOk(m, frees, live, o, size); }
    forall o, b | b in m' && IsObj(o, b, size) ensures ObjOk(frees', live, o, b) {
      if b == a { IndexIs(o, a, size); assert AllObjs(a, size)[Index(o, a, size)] == o; }
      else { assert ObjOk(frees, live, o, b); }
    }
  }

  lemma OtherWords(m: Slabs, w: Words, w': Words, fs: seq<Addr>, size: nat, a: Addr, b: Addr)
    requires SizeOk(size) && b in m && a != b && Aligned(a, size) && Aligned(b, size) && BodyOk(w, m[b], fs, b, size)
    requires w'.Keys >= w.Keys
    requires forall o | o in w && (forall k: nat | k < Capacity(size) :: o != ObjAt(a, k, size)) :: w'[o] == w[o]
    ensures BodyOk(w', m[b], fs, b, size)
  {
    forall i | 0 <= i < |fs| ensures FreeAt(w', fs, i, b, size) {
      assert FreeAt(w, fs, i, b, size);
      forall k: nat | k < Capacity(size) ensures fs[i] != ObjAt(a, k, size) {
        ObjAtIsObj(a, k, size);
        if fs[i] == ObjAt(a, k, size) { OneSlab(fs[i], a, b, size); }
      }
    }
  }

  lemma DiscardKeeps(m: Slabs, w: Words, frees: Frees, live: Live, size: nat, a: Addr)
    requires SizeOk(size) && Objects(m, w, frees, live, size) && a in m && m[a].used == 0
    ensures Objects(m - {a}, w, frees - {a}, live, size)
  {
    var m', frees' := m - {a}, frees - {a};
    forall b | b in m' ensures SlabOk(m', w, frees', b, size) { assert SlabOk(m, w, frees, b, size); }
    forall o | o in live ensures LiveOk(m', frees', live, o, size) {
      assert LiveOk(m, frees, live, o, size);
      LiveUsed(m, w, frees, live, size, o);
    }
    forall o, b | b in m' && IsObj(o, b, size) ensures ObjOk(frees', live, o, b) { assert ObjOk(frees, live, o, b); }
  }

  // ---------------------------------------------------------------- headers and objects

  /** The slab headers and the first words of the objects. */
  class SlabObjects {
    const size: nat
    var m: Slabs
    var w: Words
    ghost var frees: Frees
    ghost var live: Live

    ghost predicate Valid()
      reads this
    {
      SizeOk(size) && Objects(m, w, frees, live, size)
    }

    constructor (size: nat)
      requires SizeOk(size)
      ensures Valid() && this.size == size && m == map[] && live == map[]
    {
      this.size := size;
      m, w, frees, live := map[], map[], map[], map[];
    }

    /** A slab that is not used up has a free object. */
    lemma HasFree(a: Addr)
      requires Valid() && a in m && m[a].used < m[a].total
      ensures a in frees && frees[a] != []
    {
      assert SlabOk(m, w, frees, a, size);
    }

    lemma TotalPositive(a: Addr)
      requires Valid() && a in m
      ensures m[a].total > 0 && m[a].pages == SlabPages(size) && Aligned(a, size) && a != NULL
    {
      assert SlabOk(m, w, frees, a, size);
      CapacityPositive(size);
    }

    lemma UsedAtMost(a: Addr)
      requires Valid() && a in m
      ensures m[a].used <= m[a].total && m[a].total > 0
    {
      assert SlabOk(m, w, frees, a, size);
      CapacityPositive(size);
    }

    lemma LiveNotNull(o: Addr)
      requires Valid() && o in live
      ensures o != NULL && live[o] in m
    {
      assert LiveOk(m, frees, live, o, size);
    }

    /** alloc's stores into the slab: its first free object becomes live. */
    method Pop(a: Addr) returns (o: Addr)
      requires Valid() && a in m && frees[a] != []
      modifies this`m, this`frees, this`live
      ensures Valid() && a in m && m == old(m)[a := m[a]] && m[a].used == old(m)[a].used + 1 <= m[a].total == old(m)[a].total
      ensures m[a].freeList == NULL <==> m[a].used == m[a].total
      ensures o != NULL && o !in old(live) && IsObj(o, a, size) && live == old(live)[o := a]
      ensures a in old(frees) && o == old(frees)[a][0] && frees == old(frees)[a := old(frees)[a][1..]]
    {
      PopKeeps(m, w, frees, live, size, a);
      o := m[a].freeList;
      InsideSlab(m, w, frees, live, size, a, o);
      m := m[a := m[a].(freeList := w[o], used := m[a].used + 1)];
      frees, live := frees[a := frees[a][1..]], live[o := a];
    }

    /** free's stores into the object and its slab. */
    method Push(o: Addr, a: Addr)
      requires Valid() && o in live && live[o] == a && a in m && o != NULL && m[a].used > 0
      modifies this`m, this`w, this`frees, this`live
      ensures Valid() && live == old(live) - {o}
      ensures a in old(frees) && frees == old(frees)[a := [o] + old(frees)[a]]
      ensures m == old(m)[a := old(m)[a].(freeList := o, used := old(m)[a].used - 1)]
    {
      PushKeeps(m, w, frees, live, size, o);
      w := w[o := m[a].freeList];
      m := m[a := m[a].(freeList := o, used := m[a].used - 1)];
      frees, live := frees[a := [o] + frees[a]], live - {o};
    }

    /** What free reads: the mask of a live object is its slab, which is in use; the test that
        rejects foreign pointers passes. */
    method SlabFor(o: Addr) returns (a: Addr)
      requires Valid() && o in live
      ensures a in m && live[o] == a && 0 < m[a].used <= m[a].total && m[a].pages == SlabPages(size) && m[a].total != 0 && o != NULL
    {
      assert LiveOk(m, frees, live, o, size);
      assert SlabOk(m, w, frees, live[o], size);
      MaskFindsSlab(o, live[o], size);
      LiveUsed(m, w, frees, live, size, o);
      a := MaskLow(o, SlabBytes(size));
    }

    /** The header that createSlab writes. */
    method Header(a: Addr) returns (x: Slab)
      requires SizeOk(size) && Aligned(a, size)
      ensures x == Slab(a + HEADER, 0, Capacity(size), SlabPages(size)) && x.total > 0
    {
      DataStart(a, size);
      CapacityPositive(size);
      var ds := AlignUp(a + HEADER, 16);
      var avail := SlabPages(size) * PAGE_SIZE - (ds - a);
      x := Slab(ds, 0, avail / size, SlabPages(size));
    }

    /** createSlab's stores into the new pages. */
    method Fill(a: Addr)
      requires Valid() && a !in m && a != NULL && Aligned(a, size)
      modifies this`m, this`w, this`frees
      ensures Valid() && a in m && m == old(m)[a := m[a]] && m[a].used == 0 < m[a].total
    {
      var x := Header(a);
      w := ThreadObjects(w, a, size, x.total);
      FreshBody(w, a, size, x);
      CreateKeeps(m, old(w), w, frees, live, size, a, x);
      m := m[a := x];
      frees := frees[a := AllObjs(a, size)];
    }

    /** A slab without live objects disappears with its pages. */
    method Discard(a: Addr)
      requires Valid() && a in m && m[a].used == 0
      modifies this`m, this`frees
      ensures Valid() && m == old(m) - {a} && frees == old(frees) - {a}
    {
      DiscardKeeps(m, w, frees, live, size, a);
      m := m - {a};
      frees := frees - {a};
    }

    /** An object's first word, which links it while it is free, is its holder's to write while
        it is live. */
    method ClientStore(o: Addr, v: Addr)
      requires Valid() && o in live
      modifies this`w
      ensures Valid() && w == old(w)[o := v]
    {
      forall b | b in m ensures SlabOk(m, w[o := v], frees, b, size) {
        assert SlabOk(m, w, frees, b, size) && LiveOk(m, frees, live, o, size);
        if b != live[o] { NotInOther(m, w, frees, live, size, o, live[o], b); }
        WordKeeps(w, m[b], frees[b], b, size, o, v);
      }
      w := w[o := v];
    }
  }

  // ---------------------------------------------------------------- the cache

  /** The list a slab's used count calls for. */
  function KindOf(x: Slab): Kind {
    if x.used == 0 then Empty else if x.used == x.total then Full else Partial
  }

  ghost predicate KindOk(m: Slabs, pl: Places, a: Addr) {
    a in m && a in pl && if pl[a].InHand? then m[a].used == 0 else pl[a].kind == KindOf(m[a])
  }

  ghost predicate Kinds(m: Slabs, pl: Places) {
    forall a | a in m :: KindOk(m, pl, a)
  }

  /** A slab's pages are live in the address arena. */
  ghost predicate BackedAt(pages: set<int>, a: Addr, size: nat) {
    a % PAGE_SIZE == 0 && RunSet(a / PAGE_SIZE, SlabPages(size)) <= pages
  }

  ghost predicate Backed(slabs: set<Addr>, pages: set<int>, size: nat) {
    forall a | a in slabs :: BackedAt(pages, a, size)
  }

  /** Every slab but perhaps a is where its used count says. */
  ghost predicate KindsBut(m: Slabs, pl: Places, a: Addr) {
    forall b | b in m && b != a :: KindOk(m, pl, b)
  }

  /** The slab and the list that p names agree. */
  predicate Agrees(x: Slab, p: Place) { if p.InHand? then x.used == 0 else p.kind == KindOf(x) }

  /** After a change of one slab's counts or place the others are still right, and it is if the
      two agree. */
  lemma KindsAt(m: Slabs, pl: Places, a: Addr, x: Slab, p: Place)
    requires KindsBut(m, pl, a)
    ensures KindsBut(m[a := x], pl[a := p], a) && (Agrees(x, p) ==> Kinds(m[a := x], pl[a := p]))
  {
    var m', pl' := m[a := x], pl[a := p];
    forall b | b in m' && b != a ensures KindOk(m', pl', b) { assert KindOk(m, pl, b); }
  }

  lemma KindsWithout(m: Slabs, pl: Places, a: Addr)
    requires Kinds(m, pl)
    ensures Kinds(m - {a}, pl - {a})
  {
    forall b | b in m - {a} ensures KindOk(m - {a}, pl - {a}, b) { assert KindOk(m, pl, b); }
  }

  /** The pages of some slabs. */
  ghost function PagesOf(s: seq<Addr>, size: nat): set<int> {
    if s == [] then {} else PagesOf(s[..|s| - 1], size) + RunSet(s[|s| - 1] / PAGE_SIZE, SlabPages(size))
  }

  class SlabCache {
    const size: nat
    const arena: VmArena.VmArena
    const lists: SlabLists
    const objs: SlabObjects

    ghost predicate Base()
      reads this, lists, objs
    {
      objs.Valid() && objs.size == size && lists.Valid() && lists.pl.Keys == objs.m.Keys
    }

    /** What the cache's own lock protects: every slab is on the list its used count calls for. */
    ghost predicate Sound()
      reads this, lists, objs
    {
      Base() && Kinds(objs.m, lists.pl)
    }

    /** And the slabs' pages belong to them. */
    ghost predicate Ok()
      reads this, lists, objs, arena, arena.regions
    {
      Sound() && arena.Ok() && Backed(objs.m.Keys, arena.live, size)
    }

    /** init: object size, with header and footer, rounded up to 16 bytes. */
    constructor (arena: VmArena.VmArena, bytes: nat)
      requires arena.Ok() && bytes <= 8120
      ensures Ok() && objs.m == map[] && objs.live == map[] && this.arena == arena && fresh(lists) && fresh(objs)
      ensures bytes + 24 <= size < bytes + 40 && size % 16 == 0
    {
      assert Pow2(4) == 16;
      AlignUpIs(bytes + 24, 16);
      var rounded := AlignUp(bytes + 24, 16);
      size := rounded;
      this.arena := arena;
      lists := new SlabLists();
      objs := new SlabObjects(rounded);
    }

    /** The last part of alloc: the slab on the partial list gives up its first free object
        and moves to the full list if that was its last. */
    method TakeObject(a: Addr) returns (o: Addr)
      requires Base() && KindsBut(objs.m, lists.pl, a) && a in objs.m && lists.pl[a] == On(Partial) && objs.m[a].used < objs.m[a].total
      modifies lists, objs
      ensures Sound() && objs.m.Keys == old(objs.m).Keys
      ensures o != NULL && o !in old(objs.live) && IsObj(o, a, size) && objs.live == old(objs.live)[o := a]
      ensures a in old(objs.frees) && old(objs.frees)[a] != [] && o == old(objs.frees)[a][0]
      ensures objs.frees == old(objs.frees)[a := old(objs.frees)[a][1..]]
    {
      objs.HasFree(a);
      o := objs.Pop(a);
      KindsAt(old(objs.m), lists.pl, a, objs.m[a], lists.pl[a]);
      MoveIfFull(a);
    }

    /** The list move of alloc. */
    method MoveIfFull(a: Addr)
      requires lists.Valid() && lists.pl.Keys == objs.m.Keys && KindsBut(objs.m, lists.pl, a) && a in objs.m && lists.pl[a] == On(Partial)
      requires 0 < objs.m[a].used && (objs.m[a].freeList == NULL <==> objs.m[a].used == objs.m[a].total)
      modifies lists
      ensures lists.Valid() && lists.pl.Keys == objs.m.Keys && Kinds(objs.m, lists.pl)
    {
      if objs.m[a].freeList == NULL {
        lists.Move(a, Partial, Full);
      }
      KindsAt(objs.m, old(lists.pl), a, objs.m[a], lists.pl[a]);
    }

    /** The slab at the head of the partial or the empty list is where it should be and has a
        free object. */
    lemma HeadHasFree(k: Kind)
      requires Sound() && k != Full && lists.h.Get(k) != NULL
      ensures var a := lists.h.Get(k);
              a in objs.m && lists.pl[a] == On(k) && objs.m[a].used < objs.m[a].total && (k == Empty ==> objs.m[a].used == 0)
    {
      lists.HeadIs(k);
      var a := lists.h.Get(k);
      assert KindOk(objs.m, lists.pl, a);
      objs.UsedAtMost(a);
    }

    /** The lists tell how a slab is used: it is on the empty list exactly if none of its objects
        is in use, on the full list exactly if all are, and on the partial list otherwise. */
    lemma ListsTell(a: Addr)
      requires Sound() && a in objs.m && lists.pl[a] != InHand
      ensures a in lists.q.empty <==> forall o :: !InUse(objs.live, o, a)
      ensures a in lists.q.full <==> forall o | IsObj(o, a, size) :: InUse(objs.live, o, a)
      ensures a in lists.q.partial <==> a !in lists.q.empty && a !in lists.q.full
    {
      assert KindOk(objs.m, lists.pl, a);
      objs.TotalPositive(a);
      UnusedExactly(objs.m, objs.w, objs.frees, objs.live, size, a);
      UsedUpExactly(objs.m, objs.w, objs.frees, objs.live, size, a);
      lists.EntriesPlaced(Empty);
      lists.EntriesPlaced(Full);
      lists.EntriesPlaced(Partial);
    }

    /** alloc's choice of a slab: the first partial one, else the first empty one, which
        moves to the partial list; none only if there is neither. */
    method Choose() returns (slab: Addr)
      requires Sound()
      modifies lists
      ensures Base() && (slab == NULL <==> old(lists.q).partial == [] && old(lists.q).empty == [])
      ensures slab == NULL ==> Kinds(objs.m, lists.pl) && lists.pl == old(lists.pl) && lists.q == old(lists.q)
      ensures slab != NULL ==>
          && slab == (if old(lists.q).partial != [] then old(lists.q).partial[0] else old(lists.q).empty[0])
          && slab in objs.m && lists.pl[slab] == On(Partial) && objs.m[slab].used < objs.m[slab].total && KindsBut(objs.m, lists.pl, slab)
    {
      lists.HeadIs(Partial);
      lists.HeadIs(Empty);
      slab := lists.h.partial;
      if slab == NULL {
        if lists.h.empty == NULL {
          return NULL;
        }
        slab := lists.h.empty;
        HeadHasFree(Empty);
        lists.Move(slab, Empty, Partial);
        KindsAt(objs.m, old(lists.pl), slab, objs.m[slab], On(Partial));
        assert objs.m[slab := objs.m[slab]] == objs.m;
      } else {
        HeadHasFree(Partial);
      }
    }

    /** The first locked section of alloc. */
    method AllocFast() returns (o: Addr)
      requires Sound()
      modifies lists, objs
      ensures Sound() && objs.m.Keys == old(objs.m).Keys
      ensures o == NULL ==> objs.live == old(objs.live) && objs.m == old(objs.m) && lists.pl == old(lists.pl) && lists.q == old(lists.q)
      ensures o == NULL <==> old(lists.q).partial == [] && old(lists.q).empty == []
      ensures o != NULL ==>
          var a := if old(lists.q).partial != [] then old(lists.q).partial[0] else old(lists.q).empty[0];
          && o !in old(objs.live) && objs.live == old(objs.live)[o := a] && a in objs.m
          && a in old(objs.frees) && old(objs.frees)[a] != [] && o == old(objs.frees)[a][0]
    {
      var slab := Choose();
      if slab == NULL {
        return NULL;
      }
      o := TakeObject(slab);
    }

    /** freeSlab of a slab in hand: its pages go back to the arena, unless its table is full and
        the arena's free would run past it. */
    method FreeSlab(a: Addr) returns (overrun: bool)
      requires Ok() && a in objs.m && lists.pl[a] == InHand
      modifies objs`m, objs`frees, lists`links, lists`pl, arena`count, arena`live, arena.regions
      ensures overrun <==> old(arena.count) == VmArena.MAX_REGIONS
      ensures !overrun ==> Ok() && objs.m == old(objs.m) - {a} && lists.pl == old(lists.pl) - {a}
      ensures !overrun ==> arena.count <= old(arena.count) + 1
      ensures !overrun ==> arena.live == old(arena.live) - RunSet(a / PAGE_SIZE, SlabPages(size))
    {
      assert KindOk(objs.m, lists.pl, a) && BackedAt(arena.live, a, size);
      objs.TotalPositive(a);
      OthersBacked(objs, arena.live, a);
      overrun := arena.FreeRun(a / PAGE_SIZE, objs.m[a].pages);
      if overrun {
        return;
      }
      objs.Discard(a);
      lists.Drop(a);
      KindsWithout(old(objs.m), old(lists.pl), a);
    }

    /** The arena has no room for another slab. */
    ghost predicate NoRoom()
      requires arena.Ok()
      reads this, arena, arena.regions
    {
      arena.Refuses(SlabPages(size), SlabPages(size))
    }

    /** createSlab's request to the arena. */
    method TakePages() returns (page: nat)
      requires arena.Ok()
      modifies arena`count, arena`watermark, arena`live, arena`dropped, arena.regions
      ensures arena.Ok() && arena.count <= old(arena.count) + 1 && (page == 0 <==> old(NoRoom()))
      ensures page == 0 ==> arena.live == old(arena.live)
      ensures page != 0 ==>
          && page % SlabPages(size) == 0 && page + SlabPages(size) <= VmArena.SPACE
          && arena.live == old(arena.live) + RunSet(page, SlabPages(size)) && old(arena.live) !! RunSet(page, SlabPages(size))
    {
      var pages := SlabPages(size);
      assert Pow2(0) == 1 && Pow2(1) == 2;
      assert IsPow2(pages);
      VmArena.SmallNeverOverflows(arena.Free(), arena.start, arena.watermark, arena.live, arena.dropped, arena.limit, pages, pages);
      page := arena.AllocAligned(pages, pages);
    }

    /** createSlab: null exactly if the arena has no room or the pages cannot be mapped;
        otherwise a slab with all its objects free, in the hands of the caller. Giving back
        pages that cannot be mapped runs past a full table. */
    method CreateSlab(mapped: bool) returns (a: Addr, overrun: bool)
      requires Ok()
      modifies objs`m, objs`w, objs`frees, lists`links, lists`pl
      modifies arena`count, arena`watermark, arena`live, arena`dropped, arena.regions
      ensures overrun ==> !mapped && !old(NoRoom()) && old(arena.count) + 1 >= VmArena.MAX_REGIONS
      ensures !overrun ==> Ok() && arena.count <= old(arena.count) + 2
      ensures a == NULL <==> !mapped || old(NoRoom())
      ensures a == NULL && !overrun ==> objs.m == old(objs.m) && lists.pl == old(lists.pl) && arena.live == old(arena.live)
      ensures a != NULL ==> a in objs.m && objs.m == old(objs.m)[a := objs.m[a]] && a !in old(objs.m) && lists.pl == old(lists.pl)[a := InHand]
    {
      var page := TakePages();
      overrun := false;
      if page == 0 {
        return NULL, false;
      }
      if !mapped {
        overrun := arena.FreeRun(page, SlabPages(size));
        assert !overrun ==> arena.live == old(arena.live);
        return NULL, overrun;
      }
      NewSlabAddress(objs.m.Keys, old(arena.live), size, page);
      a := page * PAGE_SIZE;
      FillSlab(a);
    }

    /** createSlab's stores into the new pages. */
    method FillSlab(a: Addr)
      requires Sound() && a !in objs.m && a != NULL && Aligned(a, size)
      modifies objs`m, objs`w, objs`frees, lists`links, lists`pl
      ensures Sound() && a in objs.m && objs.m == old(objs.m)[a := objs.m[a]] && lists.pl == old(lists.pl)[a := InHand]
    {
      objs.Fill(a);
      lists.Enter(a);
      KindsAt(old(objs.m), old(lists.pl), a, objs.m[a], InHand);
    }

    /** alloc's object comes from the new slab. */
    method AllocNew(ns: Addr) returns (o: Addr)
      requires Sound() && ns in objs.m && lists.pl[ns] == InHand
      modifies objs, lists
      ensures Sound() && objs.m.Keys == old(objs.m).Keys && o != NULL && o !in old(objs.live) && objs.live == old(objs.live)[o := ns]
    {
      assert KindOk(objs.m, lists.pl, ns);
      objs.TotalPositive(ns);
      lists.Add(ns, Partial);
      KindsAt(objs.m, old(lists.pl), ns, objs.m[ns], On(Partial));
      assert objs.m[ns := objs.m[ns]] == objs.m;
      o := TakeObject(ns);
    }

    /** The new slab is not needed: another thread has filled the partial list. */
    method AllocOther(ns: Addr) returns (o: Addr, overrun: bool)
      requires Ok() && ns in objs.m && lists.pl[ns] == InHand && lists.h.partial != NULL
      modifies objs, lists, arena`count, arena`live, arena.regions
      ensures overrun <==> old(arena.count) == VmArena.MAX_REGIONS
      ensures !overrun ==> Ok() && objs.m.Keys == old(objs.m).Keys - {ns} && o != NULL && o !in old(objs.live)
      ensures !overrun ==> objs.live == old(objs.live)[o := old(lists.h).partial]
    {
      o := NULL;
      overrun := FreeSlab(ns);
      if overrun {
        return;
      }
      var slab := lists.h.partial;
      HeadHasFree(Partial);
      o := TakeObject(slab);
    }

    /** The second locked section of alloc, after createSlab: if another thread has filled
        the partial list meanwhile, the new slab goes back and that list is used. */
    method AllocSlow(ns: Addr) returns (o: Addr, overrun: bool)
      requires Ok() && (ns != NULL ==> ns in objs.m && lists.pl[ns] == InHand)
      modifies objs, lists, arena`count, arena`live, arena.regions
      ensures overrun <==> ns != NULL && old(lists.h).partial != NULL && old(arena.count) == VmArena.MAX_REGIONS
      ensures !overrun ==> Ok() && (ns == NULL <==> o == NULL)
      ensures !overrun && o == NULL ==> objs.live == old(objs.live) && objs.m == old(objs.m)
      ensures !overrun && o != NULL ==>
          && o !in old(objs.live) && objs.live == old(objs.live)[o := if old(lists.h).partial != NULL then old(lists.h).partial else ns]
          && objs.m.Keys == old(objs.m).Keys - (if old(lists.h).partial != NULL then {ns} else {})
    {
      overrun := false;
      if ns == NULL {
        return NULL, false;
      }
      if lists.h.partial != NULL {
        o, overrun := AllocOther(ns);
      } else {
        o := AllocNew(ns);
      }
    }

    /** alloc after its first section found nothing. */
    method AllocGrow(mapped: bool) returns (o: Addr, overrun: bool)
      requires Ok() && lists.h.partial == NULL
      modifies objs, lists, arena`count, arena`watermark, arena`live, arena`dropped, arena.regions
      ensures overrun ==> !mapped && !old(NoRoom()) && old(arena.count) + 1 >= VmArena.MAX_REGIONS
      ensures !overrun ==> Ok() && (o == NULL <==> !mapped || old(NoRoom()))
      ensures !overrun && o != NULL ==> o !in old(objs.live) && o in objs.live && objs.live == old(objs.live)[o := objs.live[o]]
      ensures !overrun && o == NULL ==> objs.live == old(objs.live)
    {
      var ns;
      ns, overrun := CreateSlab(mapped);
      if overrun {
        return NULL, true;
      }
      o, overrun := AllocSlow(ns);
    }

    /** alloc, with nothing in between its sections: null exactly if no slab has room and
        none can be created. */
    method Alloc(mapped: bool) returns (o: Addr, overrun: bool)
      requires Ok()
      modifies objs, lists, arena`count, arena`watermark, arena`live, arena`dropped, arena.regions
      ensures overrun ==> !mapped && !old(NoRoom()) && old(arena.count) + 1 >= VmArena.MAX_REGIONS
      ensures !overrun ==> Ok()
      ensures !overrun && o != NULL ==> o !in old(objs.live) && o in objs.live && objs.live == old(objs.live)[o := objs.live[o]]
      ensures !overrun && o == NULL ==> objs.live == old(objs.live)
      ensures !overrun ==> (o == NULL <==> old(lists.q).partial == [] && old(lists.q).empty == [] && (!mapped || old(NoRoom())))
    {
      o := AllocFast();
      overrun := false;
      if o == NULL {
        lists.HeadIs(Partial);
        o, overrun := AllocGrow(mapped);
      }
    }

    /** What free reads: the object's slab and the list it is on. */
    method Lookup(o: Addr) returns (a: Addr, full: bool)
      requires Sound() && o in objs.live
      ensures a in objs.m && objs.live[o] == a && 0 < objs.m[a].used <= objs.m[a].total && (full <==> objs.m[a].used == objs.m[a].total)
      ensures lists.pl[a] == On(if full then Full else Partial)
    {
      a := objs.SlabFor(o);
      assert KindOk(objs.m, lists.pl, a);
      full := objs.m[a].used == objs.m[a].total;
    }

    /** The list moves of free. */
    method Relist(a: Addr, full: bool)
      requires lists.Valid() && lists.pl.Keys == objs.m.Keys && KindsBut(objs.m, lists.pl, a) && a in objs.m
      requires objs.m[a].used < objs.m[a].total && lists.pl[a] == On(if full then Full else Partial)
      modifies lists
      ensures lists.Valid() && lists.pl.Keys == objs.m.Keys && Kinds(objs.m, lists.pl)
    {
      if full {
        lists.Move(a, Full, Partial);
      }
      if objs.m[a].used == 0 {
        lists.Move(a, Partial, Empty);
      }
      KindsAt(objs.m, old(lists.pl), a, objs.m[a], lists.pl[a]);
      assert objs.m[a := objs.m[a]] == objs.m && lists.pl == old(lists.pl)[a := lists.pl[a]];
    }

    /** free of a live object: only that object stops being live, and its slab moves to the
        list its count now calls for. */
    method Free(ptr: Addr) returns (ok: bool)
      requires Sound() && (ptr != NULL ==> ptr in objs.live)
      modifies objs, lists
      ensures Sound() && objs.m.Keys == old(objs.m).Keys && (ok <==> ptr != NULL)
      ensures ptr == NULL ==> objs.live == old(objs.live)
      ensures ptr != NULL ==>
          var a := old(objs.live)[ptr];
          objs.live == old(objs.live) - {ptr} && a in old(objs.frees) && objs.frees == old(objs.frees)[a := [ptr] + old(objs.frees)[a]]
    {
      if ptr == NULL {
        return false;
      }
      var a, full := Lookup(ptr);
      objs.LiveNotNull(ptr);
      objs.Push(ptr, a);
      KindsAt(old(objs.m), lists.pl, a, objs.m[a], lists.pl[a]);
      assert lists.pl[a := lists.pl[a]] == lists.pl;
      Relist(a, full);
      return true;
    }

    /** trim takes the first slab off the empty list. */
    method TakeEmpty(s: Addr)
      requires lists.Valid() && lists.q.empty != [] && s == lists.q.empty[0] && s in objs.m && s in lists.pl && lists.pl[s] == On(Empty)
      requires Kinds(objs.m, lists.pl)
      modifies lists
      ensures lists.Valid() && lists.q.empty == old(lists.q).empty[1..] && lists.pl == old(lists.pl)[s := InHand] && Kinds(objs.m, lists.pl)
    {
      assert ListOk(lists.links, lists.pl, lists.h.Get(Empty), lists.q.Get(Empty), Empty) && KindOk(objs.m, lists.pl, s);
      ghost var i := lists.Remove(s, Empty);
      assert i == 0;
      KindsAt(objs.m, old(lists.pl), s, objs.m[s], InHand);
      assert objs.m[s := objs.m[s]] == objs.m;
    }

    /** One round of trim's loop. */
    method TrimOne(s: Addr) returns (overrun: bool)
      requires Ok() && s == lists.h.empty && s != NULL
      modifies objs`m, objs`frees, lists, arena`count, arena`live, arena.regions
      ensures overrun <==> old(arena.count) == VmArena.MAX_REGIONS
      ensures old(lists.q).empty != [] && s == old(lists.q).empty[0]
      ensures !overrun ==> Ok() && arena.count <= old(arena.count) + 1 && lists.q.empty == old(lists.q).empty[1..]
      ensures !overrun ==> objs.m == old(objs.m) - {s} && arena.live == old(arena.live) - RunSet(s / PAGE_SIZE, SlabPages(size))
    {
      lists.HeadIs(Empty);
      TakeEmpty(s);
      overrun := FreeSlab(s);
    }

    /** trim: exactly the empty slabs go back to the arena, with their pages; no live object is
        touched. Only without table entries for all of them can it run past the table. */
    method Trim() returns (overrun: bool)
      requires Ok()
      modifies objs`m, objs`frees, lists, arena`count, arena`live, arena.regions
      ensures overrun ==> old(arena.count) + |old(lists.q).empty| > VmArena.MAX_REGIONS
      ensures !overrun ==> Ok() && lists.q.empty == [] && arena.live == old(arena.live) - PagesOf(old(lists.q).empty, size)
      ensures !overrun ==> objs.m == old(objs.m) - Gone(old(lists.q).empty, |old(lists.q).empty|)
      ensures !overrun ==> forall a | a in old(objs.m) :: a in objs.m <==> old(lists.pl)[a] != On(Empty)
    {
      ghost var e := lists.q.empty;
      lists.EntriesPlaced(Empty);
      overrun := TrimAll(e);
      assert e[..|e|] == e;
    }

    /** Its loop. */
    method TrimAll(ghost e: seq<Addr>) returns (overrun: bool)
      requires Ok() && e == lists.q.empty
      modifies objs`m, objs`frees, lists, arena`count, arena`live, arena.regions
      ensures overrun ==> old(arena.count) + |e| > VmArena.MAX_REGIONS
      ensures !overrun ==> Ok() && lists.q.empty == [] && Trimmed(e, |e|, [], old(objs.m), objs.m, old(arena.live), arena.live, size)
    {
      var s := lists.h.empty;
      ghost var i := 0;
      TrimmedNone(e, objs.m, arena.live, size);
      while s != NULL
        invariant Ok() && s == lists.h.empty && arena.count + |lists.q.empty| <= old(arena.count) + |e|
        invariant Trimmed(e, i, lists.q.empty, old(objs.m), objs.m, old(arena.live), arena.live, size)
        decreases |lists.q.empty|
      {
        lists.HeadIs(Empty);
        ghost var q, m, pages := lists.q.empty, objs.m, arena.live;
        assert |q| > 0;
        overrun := TrimOne(s);
        if overrun {
          return;
        }
        TrimmedMore(e, i, q, old(objs.m), m, old(arena.live), pages, size);
        s := lists.h.empty;
        i := i + 1;
      }
      lists.HeadIs(Empty);
      overrun := false;
    }
  }

  /** The first i slabs of a list. */
  ghost function Gone(e: seq<Addr>, i: nat): set<Addr>
    requires i <= |e|
  {
    set a | a in e[..i]
  }

  /** What trim has done after i rounds over the list e. */
  ghost predicate Trimmed(e: seq<Addr>, i: nat, q: seq<Addr>, m0: Slabs, m: Slabs, pages0: set<int>, pages: set<int>, size: nat) {
    i <= |e| && q == e[i..] && m == m0 - Gone(e, i) && pages == pages0 - PagesOf(e[..i], size)
  }

  lemma TrimmedNone(e: seq<Addr>, m: Slabs, pages: set<int>, size: nat)
    ensures Trimmed(e, 0, e, m, m, pages, pages, size)
  {
    assert Gone(e, 0) == {} && m - {} == m;
  }

  lemma TrimmedMore(e: seq<Addr>, i: nat, q: seq<Addr>, m0: Slabs, m: Slabs, pages0: set<int>, pages: set<int>, size: nat)
    requires Trimmed(e, i, q, m0, m, pages0, pages, size) && q != []
    ensures Trimmed(e, i + 1, q[1..], m0, m - {q[0]}, pages0, pages - RunSet(q[0] / PAGE_SIZE, SlabPages(size)), size)
  {
    assert e[..i + 1] == e[..i] + [e[i]];
    assert Gone(e, i + 1) == Gone(e, i) + {e[i]};
  }

  /** What the pages of a new slab give. */
  lemma NewSlabAddress(m: set<Addr>, pages: set<int>, size: nat, page: nat)
    requires Backed(m, pages, size) && page > 0 && page % SlabPages(size) == 0 && page + SlabPages(size) <= VmArena.SPACE
    requires pages !! RunSet(page, SlabPages(size))
    ensures page * PAGE_SIZE !in m && Aligned(page * PAGE_SIZE, size) && page * PAGE_SIZE / PAGE_SIZE == page
    ensures Backed(m + {page * PAGE_SIZE}, pages + RunSet(page, SlabPages(size)), size)
  {
    MultipleScales(page, SlabPages(size), PAGE_SIZE);
    assert page in RunSet(page, SlabPages(size));
    var a := page * PAGE_SIZE;
    forall b | b in m ensures b != a && BackedAt(pages + RunSet(page, SlabPages(size)), b, size) {
      assert BackedAt(pages, b, size) && b / PAGE_SIZE in RunSet(b / PAGE_SIZE, SlabPages(size));
    }
    assert BackedAt(pages + RunSet(page, SlabPages(size)), a, size);
  }

  /** Giving back one slab's pages leaves the others backed. */
  lemma OthersBacked(objs: SlabObjects, pages: set<int>, a: Addr)
    requires objs.Valid() && Backed(objs.m.Keys, pages, objs.size) && a in objs.m
    ensures Backed(objs.m.Keys - {a}, pages - RunSet(a / PAGE_SIZE, SlabPages(objs.size)), objs.size)
  {
    forall b | b in objs.m.Keys - {a} ensures BackedAt(pages - RunSet(a / PAGE_SIZE, SlabPages(objs.size)), b, objs.size) {
      assert BackedAt(pages, b, objs.size);
      objs.TotalPositive(a);
      objs.TotalPositive(b);
      PagesApart(a, b, objs.size);
    }
  }

  lemma PagesApart(a: Addr, b: Addr, size: nat)
    requires a != b && Aligned(a, size) && Aligned(b, size)
    ensures RunSet(a / PAGE_SIZE, SlabPages(size)) !! RunSet(b / PAGE_SIZE, SlabPages(size))
  {
    if a < b { MultiplesApart(a, b, SlabBytes(size)); } else { MultiplesApart(b, a, SlabBytes(size)); }
  }
}
