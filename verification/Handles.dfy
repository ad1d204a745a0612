/** Handles of archs/kom/common/handle.cpp: the packed value, rights, generations, and the
    slots of a table with its free list. */
module Handles {
  import opened Bits
  import opened Common
  import opened Counting

  const CAPACITY := 4096
  const GENERATIONS := 65535

  type Obj = Ptr

  datatype Entry = Entry(obj: Obj, caps: nat, generation: nat)

  // ---------------------------------------------------------------- handles

  const P32 := 0x1_0000_0000
  const P48 := 0x1_0000_0000_0000

  function IdxOf(h: nat): nat { h % P32 }
  function GenOf(h: nat): nat { h / P32 % 0x1_0000 }
  function CapsOf(h: nat): nat { h / P48 % 0x1_0000 }

  function Make(caps: nat, gen: nat, idx: nat): nat { caps * P48 + gen * P32 + idx }

  /** A handle carries its three fields intact and is never 0. */
  lemma MakeParts(caps: nat, gen: nat, idx: nat)
    requires caps < 0x1_0000 && gen < 0x1_0000 && 0 < idx < CAPACITY
    ensures var h := Make(caps, gen, idx); h != 0 && IdxOf(h) == idx && GenOf(h) == gen && CapsOf(h) == caps
  {
    var h := Make(caps, gen, idx);
    assert h == P32 * (caps * 0x1_0000 + gen) + idx;
    assert h / P32 == caps * 0x1_0000 + gen && h % P32 == idx;
    assert h == P48 * caps + (gen * P32 + idx) && gen * P32 + idx < P48;
    assert h / P48 == caps;
  }

  /** Every 64-bit value is made of its fields: rights above bit 48, the generation above bit 32
      and the index below. */
  lemma PartsMake(h: nat)
    requires h < 0x1_0000_0000_0000_0000
    ensures h == CapsOf(h) * 0x1_0000_0000_0000 + GenOf(h) * 0x1_0000_0000 + IdxOf(h)
    ensures IdxOf(h) < 0x1_0000_0000 && GenOf(h) < 0x1_0000 && CapsOf(h) < 0x1_0000 && h == Make(CapsOf(h), GenOf(h), IdxOf(h))
  {
    var x := h / P32;
    assert h == P32 * x + h % P32 && x == 0x1_0000 * (x / 0x1_0000) + x % 0x1_0000;
    assert h == P48 * (x / 0x1_0000) + (P32 * (x % 0x1_0000) + h % P32);
    assert P32 * (x % 0x1_0000) + h % P32 < P48;
    ModUnique(h, P48, x / 0x1_0000, P32 * (x % 0x1_0000) + h % P32);
  }

  /** Two live handles of one table are different values when they name different slots,
      and no handle is 0. */
  lemma HandlesDistinct(es: seq<Entry>, i: nat, j: nat)
    requires |es| == CAPACITY && 0 < i < CAPACITY && 0 < j < CAPACITY && i != j
    requires forall k | 0 <= k < CAPACITY :: es[k].caps < 0x1_0000 && es[k].generation < 0x1_0000
    ensures Make(es[i].caps, es[i].generation, i) != Make(es[j].caps, es[j].generation, j)
    ensures Make(es[i].caps, es[i].generation, i) != 0
  {
    MakeParts(es[i].caps, es[i].generation, i);
    MakeParts(es[j].caps, es[j].generation, j);
  }

  // ---------------------------------------------------------------- rights

  /** (caps & req) == req on 16 bits. */
  predicate Allows(caps: nat, req: nat) { And(caps, req, 16) == req }

  lemma {:induction false} AndSubset(a: nat, b: nat, c: nat, w: nat)
    requires And(a, b, w) == b && And(b, c, w) == c
    ensures And(a, c, w) == c
  {
    if w > 0 { AndSubset(a / 2, b / 2, c / 2, w - 1); }
  }

  /** Right i of a set of rights. */
  predicate HasRight(caps: nat, i: nat) { caps / Pow2(i) % 2 == 1 }

  /** No right is asked for that is not there. */
  ghost predicate Within(req: nat, caps: nat) {
    forall i: nat | i < 16 :: HasRight(req, i) ==> HasRight(caps, i)
  }

  lemma {:induction false} AndExactly(a: nat, b: nat, w: nat)
    requires b < Pow2(w)
    ensures And(a, b, w) == b <==> forall i: nat | i < w :: HasRight(b, i) ==> HasRight(a, i)
  {
    if w > 0 {
      AndExactly(a / 2, b / 2, w - 1);
      assert Pow2(0) == 1 && (HasRight(b, 0) <==> b % 2 == 1) && (HasRight(a, 0) <==> a % 2 == 1);
      forall i: nat ensures HasRight(a, i + 1) <==> HasRight(a / 2, i) { HalfRight(a, i); }
      forall i: nat ensures HasRight(b, i + 1) <==> HasRight(b / 2, i) { HalfRight(b, i); }
      if forall i: nat | i < w :: HasRight(b, i) ==> HasRight(a, i) {
        forall i: nat | i < w - 1 && HasRight(b / 2, i) ensures HasRight(a / 2, i) { assert HasRight(b, i + 1); }
      }
      if forall i: nat | i < w - 1 :: HasRight(b / 2, i) ==> HasRight(a / 2, i) {
        forall i: nat | 0 < i < w && HasRight(b, i) ensures HasRight(a, i) { assert HasRight(b / 2, i - 1); }
      }
    }
  }

  lemma HalfRight(a: nat, i: nat)
    ensures HasRight(a, i + 1) <==> HasRight(a / 2, i)
  {
    assert Pow2(i + 1) == 2 * Pow2(i);
    DivTwice(a, Pow2(i));
  }

  lemma DivTwice(a: nat, p: nat)
    requires p > 0
    ensures a / (2 * p) == a / 2 / p
  {
    var q, r := a / 2 / p, a / 2 % p;
    assert a / 2 == p * q + r;
    assert a == (2 * p) * q + (2 * r + a % 2);
    ModUnique(a, 2 * p, q, 2 * r + a % 2);
  }

  /** The mask test is the test of each single right. */
  lemma AllowsExactly(caps: nat, req: nat)
    requires req < 0x1_0000
    ensures Allows(caps, req) <==> Within(req, caps)
  {
    Pow2Add(8, 8);
    assert Pow2(8) == 256;
    AndExactly(caps, req, 16);
  }

  /** Rights only shrink along a chain of grants. */
  lemma AllowsTransitive(a: nat, b: nat, c: nat)
    requires Allows(a, b) && Allows(b, c)
    ensures Allows(a, c)
  {
    AndSubset(a, b, c, 16);
  }

  lemma {:induction false} AndSelf(a: nat, w: nat)
    requires a < Pow2(w)
    ensures And(a, a, w) == a
  {
    if w > 0 { AndSelf(a / 2, w - 1); }
  }

  lemma AllowsSelf(a: nat)
    requires a < 0x1_0000
    ensures Allows(a, a)
  {
    Pow2Add(8, 8);
    assert Pow2(8) == 256;
    AndSelf(a, 16);
  }

  // ---------------------------------------------------------------- generations

  /** The generation of a slot that has been retired r times. */
  function GenAfter(r: nat): nat { 1 + r % GENERATIONS }

  /** The 16-bit increment that skips 0. */
  function NextGen(g: nat): nat { if (g + 1) % 0x1_0000 == 0 then 1 else (g + 1) % 0x1_0000 }

  lemma NextGenIs(r: nat)
    ensures NextGen(GenAfter(r)) == GenAfter(r + 1) && 0 < GenAfter(r) < 0x1_0000
  {
  }

  /** A retired generation no longer matches. */
  lemma NextGenDiffers(g: nat)
    requires g < 0x1_0000
    ensures NextGen(g) != g
  {
  }

  /** A handle made when its slot had been retired r times matches the slot again, after at
      least one more retirement, only once the slot has been retired 65535 times more. */
  lemma StaleUntilWrap(r: nat, now: nat)
    requires now > r
    ensures GenAfter(now) == GenAfter(r) <==> (now - r) % GENERATIONS == 0
    ensures GenAfter(now) == GenAfter(r) ==> now >= r + GENERATIONS
  {
  }

  // ---------------------------------------------------------------- counting names

  function Naming(o: Obj): Entry -> bool { (e: Entry) => e.obj == o }

  /** How many entries name an object. */
  function Names(es: seq<Entry>, o: Obj): nat { Num(es, Naming(o)) }

  // ---------------------------------------------------------------- invariant

  /** Slot i: unused slots are on the free list, used ones name a live object with rights
      that were granted; the generation tells how often the slot was retired. */
  ghost predicate SlotOk(es: seq<Entry>, free: seq<nat>, retired: seq<nat>, granted: seq<nat>, i: int) {
    && 0 < i < |es| == |retired| == |granted|
    && es[i].generation == GenAfter(retired[i]) && es[i].caps < 0x1_0000 && granted[i] < 0x1_0000
    && (es[i].obj == NULL <==> i in free)
    && (es[i].obj != NULL ==> Allows(granted[i], es[i].caps))
  }

  ghost predicate SlotsOk(es: seq<Entry>, free: seq<nat>, retired: seq<nat>, granted: seq<nat>) {
    && |es| == |retired| == |granted| == CAPACITY && es[0].obj == NULL
    && (forall i | 0 < i < CAPACITY :: SlotOk(es, free, retired, granted, i))
    && (forall k | 0 <= k < |free| :: 0 < free[k] < CAPACITY)
    && (forall j, k | 0 <= j < k < |free| :: free[j] != free[k])
  }

  lemma {:induction false} AndNarrow(a: nat, b: nat, w: nat)
    ensures And(a, b, w) < Pow2(w)
  {
    if w > 0 { AndNarrow(a / 2, b / 2, w - 1); }
  }

  lemma AllowsWithin(caps: nat, req: nat)
    requires Allows(caps, req)
    ensures Within(req, caps)
  {
    AndNarrow(caps, req, 16);
    AndExactly(caps, req, 16);
  }

  /** An entry has no right that was not granted when its object first got a handle. */
  lemma NoRightAppears(es: seq<Entry>, free: seq<nat>, retired: seq<nat>, granted: seq<nat>, i: nat)
    requires SlotsOk(es, free, retired, granted) && 0 < i < CAPACITY && es[i].obj != NULL
    ensures Within(es[i].caps, granted[i])
  {
    assert SlotOk(es, free, retired, granted, i);
    AllowsExactly(granted[i], es[i].caps);
  }

  /** So a handle whose slot has been retired since cannot match before that. */
  lemma StaleHandle(es: seq<Entry>, free: seq<nat>, retired: seq<nat>, granted: seq<nat>, h: nat, r: nat)
    requires SlotsOk(es, free, retired, granted) && 0 < IdxOf(h) < CAPACITY && GenOf(h) == GenAfter(r) && retired[IdxOf(h)] > r
    ensures retired[IdxOf(h)] < r + GENERATIONS ==> es[IdxOf(h)].generation != GenOf(h)
    ensures retired[IdxOf(h)] == r + GENERATIONS ==> es[IdxOf(h)].generation == GenOf(h)
  {
    assert SlotOk(es, free, retired, granted, IdxOf(h));
    StaleUntilWrap(r, retired[IdxOf(h)]);
  }

  /** The free list cannot overflow its array. */
  lemma FreeListFits(free: seq<nat>)
    requires (forall k | 0 <= k < |free| :: 0 < free[k] < CAPACITY) && (forall j, k | 0 <= j < k < |free| :: free[j] != free[k])
    ensures |free| <= CAPACITY - 1
  {
    DistinctCard(free);
    RunCard(1, CAPACITY - 1);
    var a, b := Elements(free), RunSet(1, CAPACITY - 1);
    assert a <= b;
    assert b == a + (b - a);
  }

  /** Putting a slot to use. */
  lemma UseSlot(es: seq<Entry>, free: seq<nat>, retired: seq<nat>, granted: seq<nat>, obj: Obj, caps: nat, grant: nat)
    requires SlotsOk(es, free, retired, granted) && free != [] && obj != NULL && caps < 0x1_0000 && grant < 0x1_0000 && Allows(grant, caps)
    ensures var i := free[|free| - 1];
            && 0 < i < CAPACITY && es[i].obj == NULL
            && SlotsOk(Used(es, i, obj, caps), free[..|free| - 1], retired, granted[i := grant])
  {
    var i := free[|free| - 1];
    var es', free', granted' := Used(es, i, obj, caps), free[..|free| - 1], granted[i := grant];
    assert SlotOk(es, free, retired, granted, i);
    forall k | 0 < k < CAPACITY ensures SlotOk(es', free', retired, granted', k) {
      assert SlotOk(es, free, retired, granted, k);
      if k != i && k in free { var x :| 0 <= x < |free| && free[x] == k; assert free'[x] == k; }
    }
  }

  /** Retiring a slot. */
  lemma RetireSlot(es: seq<Entry>, free: seq<nat>, retired: seq<nat>, granted: seq<nat>, i: nat)
    requires SlotsOk(es, free, retired, granted) && 0 < i < CAPACITY && es[i].obj != NULL
    ensures SlotsOk(Retired(es, i), free + [i], retired[i := retired[i] + 1], granted)
    ensures |free| + 1 <= CAPACITY - 1
  {
    assert SlotOk(es, free, retired, granted, i);
    NextGenIs(retired[i]);
    var es', free', retired' := Retired(es, i), free + [i], retired[i := retired[i] + 1];
    forall k | 0 < k < CAPACITY ensures SlotOk(es', free', retired', granted, k) { assert SlotOk(es, free, retired, granted, k); }
    FreeListFits(free');
  }

  // ---------------------------------------------------------------- table stores

  /** The handle names a used slot of its generation. */
  predicate Matches(es: seq<Entry>, h: nat) {
    0 < IdxOf(h) < CAPACITY && |es| == CAPACITY && es[IdxOf(h)].generation == GenOf(h) && es[IdxOf(h)].obj != NULL
  }

  /** The stores of alloc's locked section. */
  function Used(es: seq<Entry>, i: nat, obj: Obj, caps: nat): seq<Entry>
    requires i < |es|
  {
    es[i := es[i].(obj := obj, caps := caps)]
  }

  /** The stores that close and transfer share. */
  function Retired(es: seq<Entry>, i: nat): seq<Entry>
    requires i < |es|
  {
    es[i := Entry(NULL, 0, NextGen(es[i].generation))]
  }

  /** The handle made for a slot that is put to use matches it, and matched nothing before. */
  lemma NewHandle(es: seq<Entry>, i: nat, obj: Obj, caps: nat, r: nat)
    requires |es| == CAPACITY && 0 < i < CAPACITY && es[i].obj == NULL != obj && caps < 0x1_0000 && es[i].generation == GenAfter(r)
    ensures var h := Make(caps, es[i].generation, i);
            && h != 0 && IdxOf(h) == i && CapsOf(h) == caps && GenOf(h) == GenAfter(r)
            && Matches(Used(es, i, obj, caps), h) && !Matches(es, h)
  {
    NextGenIs(r);
    MakeParts(caps, es[i].generation, i);
  }
}
