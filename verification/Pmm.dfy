/** The physical memory manager of rust_core/src/memory/pmm.rs: extents, reference counts
    and per-CPU magazines, with every frame owned by exactly one of them, a client or the
    reserved set. */
module Pmm {
  import opened Bits
  import opened Common
  import opened Counting
  import opened Extents
  import opened FreeRuns
  import opened PmmExtents

  /** Who has a frame. A cached frame is named with its CPU's magazine and slot. */
  datatype Owner = InExtents | Cached(cpu: nat, slot: nat) | Held | Reserved

  // ---------------------------------------------------------------- the invariant

  /** What the reference count of a frame may be. */
  predicate RefOk(r: nat, o: Owner) {
    match o
    case InExtents => r == REF_FREE
    case Cached(_, _) => r == 1
    case Held => 1 <= r <= 254
    case Reserved => r == REF_RESERVED
  }

  ghost predicate FrameOk(free: seq<Extent>, refs: seq<nat>, mags: seq<seq<nat>>, owner: seq<Owner>, f: int) {
    && 0 <= f < |owner| == |refs|
    && RefOk(refs[f], owner[f])
    && (owner[f].InExtents? <==> Covers(free, f))
    && (owner[f].Cached? ==>
          owner[f].cpu < |mags| && owner[f].slot < |mags[owner[f].cpu]| && mags[owner[f].cpu][owner[f].slot] == f)
  }

  ghost predicate SlotOk(mags: seq<seq<nat>>, owner: seq<Owner>, c: int, i: int) {
    0 <= c < |mags| && 0 <= i < |mags[c]| && mags[c][i] < |owner| && owner[mags[c][i]] == Cached(c, i)
  }

  function Cards(mags: seq<seq<nat>>): nat {
    if mags == [] then 0 else Cards(mags[..|mags| - 1]) + |mags[|mags| - 1]|
  }

  ghost predicate Parts(free: seq<Extent>, refs: seq<nat>, mags: seq<seq<nat>>, owner: seq<Owner>) {
    && |refs| == |owner| <= FRAME_LIMIT && (|owner| > 0 ==> owner[0].Reserved?) && |mags| == MAX_CPUS
    && (forall f | 0 <= f < |owner| :: FrameOk(free, refs, mags, owner, f))
    && (forall f | Covers(free, f) :: 0 <= f < |owner|)
    && (forall c, i | 0 <= c < |mags| && 0 <= i < |mags[c]| :: SlotOk(mags, owner, c, i))
    && (forall c | 0 <= c < |mags| :: |mags[c]| <= MAGAZINE_SIZE)
  }

  /** Every frame is in exactly one place, its count agrees with it, and the two counters
      are what they claim. */
  ghost predicate PmmOk(free: seq<Extent>, refs: seq<nat>, used: int, mags: seq<seq<nat>>, magTotal: int, owner: seq<Owner>) {
    && Parts(free, refs, mags, owner)
    && used == |owner| - Size(free)
    && magTotal == Cards(mags)
  }

  // ---------------------------------------------------------------- steps

  function SetRange<T>(s: seq<T>, a: nat, n: nat, v: T): (r: seq<T>)
    requires a + n <= |s|
    ensures |r| == |s| && forall i | 0 <= i < |s| :: r[i] == if a <= i < a + n then v else s[i]
  {
    s[..a] + seq(n, _ => v) + s[a + n..]
  }

  lemma {:induction false} CardsUpdate(mags: seq<seq<nat>>, c: nat, m: seq<nat>)
    requires c < |mags|
    ensures Cards(mags[c := m]) == Cards(mags) - |mags[c]| + |m|
  {
    var p := mags[..|mags| - 1];
    if c == |mags| - 1 {
      assert mags[c := m][..|mags| - 1] == p;
    } else {
      assert mags[c := m][..|mags| - 1] == p[c := m];
      CardsUpdate(p, c, m);
    }
  }

  lemma {:induction false} NoCards(mags: seq<seq<nat>>)
    requires forall c | 0 <= c < |mags| :: mags[c] == []
    ensures Cards(mags) == 0
  {
    if mags != [] { NoCards(mags[..|mags| - 1]); }
  }

  /** Taking a run of free frames for a client. */
  lemma TakeRun(free: seq<Extent>, free': seq<Extent>, a: nat, n: nat, refs: seq<nat>, mags: seq<seq<nat>>, owner: seq<Owner>)
    requires Parts(free, refs, mags, owner) && TookRun(free, free', a, n) && n > 0
    ensures a > 0 && a + n <= |owner|
    ensures Parts(free', SetRange(refs, a, n, 1), mags, SetRange(owner, a, n, Held))
  {
    assert Covers(free, a) && Covers(free, a + n - 1);
    assert FrameOk(free, refs, mags, owner, 0);
    var refs', owner' := SetRange(refs, a, n, 1), SetRange(owner, a, n, Held);
    forall f | 0 <= f < |owner'| ensures FrameOk(free', refs', mags, owner', f) {
      assert FrameOk(free, refs, mags, owner, f);
    }
    forall c, i | 0 <= c < |mags| && 0 <= i < |mags[c]| ensures SlotOk(mags, owner', c, i) {
      assert SlotOk(mags, owner, c, i) && FrameOk(free, refs, mags, owner, mags[c][i]);
    }
  }

  /** Giving back a run of frames that a client holds with count 1. */
  lemma GiveRun(free: seq<Extent>, free': seq<Extent>, a: nat, n: nat, refs: seq<nat>, mags: seq<seq<nat>>, owner: seq<Owner>)
    requires Parts(free, refs, mags, owner) && a + n <= |owner|
    requires forall f | a <= f < a + n :: owner[f].Held?
    requires forall f :: Covers(free', f) <==> Covers(free, f) || a <= f < a + n
    ensures Parts(free', SetRange(refs, a, n, 0), mags, SetRange(owner, a, n, InExtents))
  {
    var refs', owner' := SetRange(refs, a, n, 0), SetRange(owner, a, n, InExtents);
    forall f | 0 <= f < |owner'| ensures FrameOk(free', refs', mags, owner', f) {
      assert FrameOk(free, refs, mags, owner, f);
    }
    forall c, i | 0 <= c < |mags| && 0 <= i < |mags[c]| ensures SlotOk(mags, owner', c, i) {
      assert SlotOk(mags, owner, c, i);
    }
  }

  /** Putting a held frame of count 1 on top of a magazine. */
  lemma PushFrame(free: seq<Extent>, refs: seq<nat>, mags: seq<seq<nat>>, owner: seq<Owner>, c: nat, f: nat)
    requires Parts(free, refs, mags, owner) && c < MAX_CPUS && |mags[c]| < MAGAZINE_SIZE
    requires f < |owner| && owner[f].Held? && refs[f] == 1
    ensures Parts(free, refs, mags[c := mags[c] + [f]], owner[f := Cached(c, |mags[c]|)])
    ensures Cards(mags[c := mags[c] + [f]]) == Cards(mags) + 1
  {
    var mags', owner' := mags[c := mags[c] + [f]], owner[f := Cached(c, |mags[c]|)];
    CardsUpdate(mags, c, mags[c] + [f]);
    forall g | 0 <= g < |owner'| ensures FrameOk(free, refs, mags', owner', g) {
      assert FrameOk(free, refs, mags, owner, g);
    }
    forall d, i | 0 <= d < |mags'| && 0 <= i < |mags'[d]| ensures SlotOk(mags', owner', d, i) {
      if i < |mags[d]| { assert SlotOk(mags, owner, d, i); }
    }
  }

  function CachedRun(owner: seq<Owner>, c: nat, a: nat): (r: seq<Owner>)
    ensures |r| == |owner|
    ensures forall f | 0 <= f < |owner| :: r[f] == if a <= f < a + MAGAZINE_SIZE then Cached(c, f - a) else owner[f]
  {
    seq(|owner|, f requires 0 <= f < |owner| => if a <= f < a + MAGAZINE_SIZE then Cached(c, f - a) else owner[f])
  }

  /** Filling an empty magazine with a run of held frames. */
  lemma PushRun(free: seq<Extent>, refs: seq<nat>, mags: seq<seq<nat>>, owner: seq<Owner>, c: nat, a: nat, frames: seq<nat>)
    requires Parts(free, refs, mags, owner) && c < MAX_CPUS && mags[c] == [] && a + MAGAZINE_SIZE <= |owner|
    requires |frames| == MAGAZINE_SIZE && forall i | 0 <= i < MAGAZINE_SIZE :: frames[i] == a + i
    requires forall f | a <= f < a + MAGAZINE_SIZE :: owner[f].Held? && refs[f] == 1
    ensures Parts(free, refs, mags[c := frames], CachedRun(owner, c, a))
  {
    var mags', owner' := mags[c := frames], CachedRun(owner, c, a);
    forall g | 0 <= g < |owner'| ensures FrameOk(free, refs, mags', owner', g) {
      assert FrameOk(free, refs, mags, owner, g);
    }
    forall d, i | 0 <= d < |mags'| && 0 <= i < |mags'[d]| ensures SlotOk(mags', owner', d, i) {
      if d != c { assert SlotOk(mags, owner, d, i); }
    }
  }

  /** Taking the top frame of a magazine. */
  lemma PopFrame(free: seq<Extent>, refs: seq<nat>, mags: seq<seq<nat>>, owner: seq<Owner>, c: nat)
    requires Parts(free, refs, mags, owner) && c < MAX_CPUS && mags[c] != []
    ensures var n := |mags[c]| - 1; var f := mags[c][n];
            && 0 < f < |owner| && owner[f] == Cached(c, n) && refs[f] == 1
            && Parts(free, refs, mags[c := mags[c][..n]], owner[f := Held])
            && Cards(mags[c := mags[c][..n]]) == Cards(mags) - 1
  {
    var n := |mags[c]| - 1;
    var f := mags[c][n];
    assert SlotOk(mags, owner, c, n) && FrameOk(free, refs, mags, owner, f);
    var mags', owner' := mags[c := mags[c][..n]], owner[f := Held];
    CardsUpdate(mags, c, mags[c][..n]);
    forall g | 0 <= g < |owner'| ensures FrameOk(free, refs, mags', owner', g) {
      assert FrameOk(free, refs, mags, owner, g);
    }
    forall d, i | 0 <= d < |mags'| && 0 <= i < |mags'[d]| ensures SlotOk(mags', owner', d, i) {
      assert SlotOk(mags, owner, d, i);
    }
  }

  /** Handing a whole magazine to the code that flushes it. */
  function Uncached(owner: seq<Owner>, c: nat): (r: seq<Owner>)
    ensures |r| == |owner|
    ensures forall f | 0 <= f < |owner| :: r[f] == if owner[f].Cached? && owner[f].cpu == c then Held else owner[f]
  {
    seq(|owner|, f requires 0 <= f < |owner| => if owner[f].Cached? && owner[f].cpu == c then Held else owner[f])
  }

  lemma UncacheAll(free: seq<Extent>, refs: seq<nat>, mags: seq<seq<nat>>, owner: seq<Owner>, c: nat)
    requires Parts(free, refs, mags, owner) && c < MAX_CPUS
    ensures Parts(free, refs, mags[c := []], Uncached(owner, c))
    ensures Cards(mags[c := []]) == Cards(mags) - |mags[c]|
    ensures forall i | 0 <= i < |mags[c]| :: 0 < mags[c][i] < |owner| && Uncached(owner, c)[mags[c][i]].Held? && refs[mags[c][i]] == 1
    ensures forall i, j | 0 <= i < j < |mags[c]| :: mags[c][i] != mags[c][j]
  {
    var mags', owner' := mags[c := []], Uncached(owner, c);
    CardsUpdate(mags, c, []);
    forall i | 0 <= i < |mags[c]|
      ensures 0 < mags[c][i] < |owner| && owner'[mags[c][i]].Held? && refs[mags[c][i]] == 1 && owner[mags[c][i]] == Cached(c, i)
    {
      assert SlotOk(mags, owner, c, i) && FrameOk(free, refs, mags, owner, mags[c][i]);
    }
    forall g | 0 <= g < |owner'| ensures FrameOk(free, refs, mags', owner', g) {
      assert FrameOk(free, refs, mags, owner, g);
    }
    forall d, i | 0 <= d < |mags'| && 0 <= i < |mags'[d]| ensures SlotOk(mags', owner', d, i) {
      assert SlotOk(mags, owner, d, i);
    }
  }

  // ---------------------------------------------------------------- what a call changes

  predicate SameFor(o: Owner, r: nat, o': Owner, r': nat) {
    && (o.Held? <==> o'.Held?)
    && (o.Reserved? <==> o'.Reserved?)
    && (o.Held? ==> r == r')
  }

  /** Outside [a, a + n) clients hold what they held, with the same counts. */
  ghost predicate ClientsKept(owner: seq<Owner>, refs: seq<nat>, owner': seq<Owner>, refs': seq<nat>, a: nat, n: nat) {
    && |owner| == |owner'| == |refs| == |refs'|
    && forall f | 0 <= f < |owner| && !(a <= f < a + n) :: SameFor(owner[f], refs[f], owner'[f], refs'[f])
  }

  /** A run that was with the allocator is now a client's, with count 1. */
  ghost predicate Granted(owner: seq<Owner>, refs: seq<nat>, owner': seq<Owner>, refs': seq<nat>, a: nat, n: nat) {
    && ClientsKept(owner, refs, owner', refs', a, n)
    && 0 < a && a + n <= |owner|
    && (forall f | a <= f < a + n :: owner[f].InExtents? || owner[f].Cached?)
    && (forall f | a <= f < a + n :: owner'[f].Held? && refs'[f] == 1)
  }

  /** Number of maximal runs of count-1 frames among the first n from start: how often
      pmm_free_contiguous inserts an extent. */
  function Runs(refs: seq<nat>, start: nat, n: nat): nat
    requires start + n <= |refs|
  {
    if n == 0 then 0
    else Runs(refs, start, n - 1) +
         if refs[start + n - 1] == 1 && (n == 1 || refs[start + n - 2] != 1) then 1 else 0
  }

  lemma RecountKeeps(free: seq<Extent>, refs: seq<nat>, mags: seq<seq<nat>>, owner: seq<Owner>, f: nat, r: nat)
    requires Parts(free, refs, mags, owner) && f < |owner| && owner[f].Held? && 1 <= r <= 254
    ensures Parts(free, refs[f := r], mags, owner)
  {
    var refs' := refs[f := r];
    forall g | 0 <= g < |owner| ensures FrameOk(free, refs', mags, owner, g) {
      assert FrameOk(free, refs, mags, owner, g);
    }
    forall c, i | 0 <= c < |mags| && 0 <= i < |mags[c]| ensures SlotOk(mags, owner, c, i) { }
  }

  lemma GrantedAfter(o0: seq<Owner>, r0: seq<nat>, o1: seq<Owner>, r1: seq<nat>, o2: seq<Owner>, r2: seq<nat>, a: nat)
    requires ClientsKept(o0, r0, o1, r1, 0, 0) && Granted(o1, r1, o2, r2, a, 1)
    ensures Granted(o0, r0, o2, r2, a, 1)
  {
    assert SameFor(o0[a], r0[a], o1[a], r1[a]);
  }

  /** What free_frame_locked and pmm_dec_ref ask of their callers: a counted frame is the
      caller's, not one that waits in a magazine. */
  predicate DropAllowed(refs: seq<nat>, owner: seq<Owner>, f: nat)
    requires |refs| == |owner|
  {
    0 < f < |refs| && refs[f] != REF_FREE && refs[f] != REF_RESERVED ==> owner[f].Held?
  }

  ghost predicate Dropped(o: seq<Owner>, r: seq<nat>, o': seq<Owner>, r': seq<nat>, f: nat) {
    if 0 < f < |r| == |o| && r[f] != REF_FREE && r[f] != REF_RESERVED
    then r' == r[f := r[f] - 1] && o' == if r[f] == 1 then o[f := InExtents] else o
    else r' == r && o' == o
  }

  /** A frame before a flush and after the first i frames of the magazine were freed. */
  predicate FlushedFrame(o: Owner, r: nat, o': Owner, r': nat, cpu: nat, i: nat) {
    if o.Cached? && o.cpu == cpu
    then (if o.slot < i then o'.InExtents? else o'.Held? && r' == 1)
    else o' == o && r' == r
  }

  ghost predicate FlushedTo(o: seq<Owner>, r: seq<nat>, o': seq<Owner>, r': seq<nat>, cpu: nat, i: nat) {
    && |o| == |r| == |o'| == |r'|
    && forall f | 0 <= f < |o| :: FlushedFrame(o[f], r[f], o'[f], r'[f], cpu, i)
  }

  lemma FlushStart(free: seq<Extent>, refs: seq<nat>, mags: seq<seq<nat>>, owner: seq<Owner>, cpu: nat)
    requires Parts(free, refs, mags, owner) && cpu < MAX_CPUS
    ensures FlushedTo(owner, refs, Uncached(owner, cpu), refs, cpu, 0)
  {
    forall f | 0 <= f < |owner| ensures FlushedFrame(owner[f], refs[f], Uncached(owner, cpu)[f], refs[f], cpu, 0) {
      assert FrameOk(free, refs, mags, owner, f);
    }
  }

  lemma FlushNext(free: seq<Extent>, mags: seq<seq<nat>>, o: seq<Owner>, r: seq<nat>, cpu: nat, i: nat,
                  o1: seq<Owner>, r1: seq<nat>)
    requires Parts(free, r, mags, o) && cpu < MAX_CPUS && i < |mags[cpu]| && FlushedTo(o, r, o1, r1, cpu, i)
    ensures DropAllowed(r1, o1, mags[cpu][i]) && 0 < mags[cpu][i] < |r1| && r1[mags[cpu][i]] == 1
  {
    var f := mags[cpu][i];
    assert SlotOk(mags, o, cpu, i) && FlushedFrame(o[f], r[f], o1[f], r1[f], cpu, i);
  }

  lemma FlushStep(free: seq<Extent>, mags: seq<seq<nat>>, o: seq<Owner>, r: seq<nat>, cpu: nat, i: nat,
                  o1: seq<Owner>, r1: seq<nat>, o2: seq<Owner>, r2: seq<nat>)
    requires Parts(free, r, mags, o) && cpu < MAX_CPUS && i < |mags[cpu]|
    requires FlushedTo(o, r, o1, r1, cpu, i) && Dropped(o1, r1, o2, r2, mags[cpu][i])
    ensures FlushedTo(o, r, o2, r2, cpu, i + 1)
  {
    var f := mags[cpu][i];
    assert SlotOk(mags, o, cpu, i) && FrameOk(free, r, mags, o, f);
    assert FlushedFrame(o[f], r[f], o1[f], r1[f], cpu, i);
    assert f != 0;
    forall g | 0 <= g < |o| ensures FlushedFrame(o[g], r[g], o2[g], r2[g], cpu, i + 1) {
      assert FlushedFrame(o[g], r[g], o1[g], r1[g], cpu, i) && FrameOk(free, r, mags, o, g);
    }
  }

  lemma FlushDone(free: seq<Extent>, mags: seq<seq<nat>>, o: seq<Owner>, r: seq<nat>, cpu: nat, o': seq<Owner>, r': seq<nat>)
    requires Parts(free, r, mags, o) && cpu < MAX_CPUS && FlushedTo(o, r, o', r', cpu, |mags[cpu]|)
    ensures ClientsKept(o, r, o', r', 0, 0)
    ensures forall f | 0 <= f < |o| && o[f].Cached? && o[f].cpu == cpu :: o'[f].InExtents?
  {
    forall f | 0 <= f < |o|
      ensures SameFor(o[f], r[f], o'[f], r'[f]) && (o[f].Cached? && o[f].cpu == cpu ==> o'[f].InExtents?)
    {
      assert FrameOk(free, r, mags, o, f) && FlushedFrame(o[f], r[f], o'[f], r'[f], cpu, |mags[cpu]|);
    }
  }

  /** A frame before pmm_free_contiguous and during it: passed over or not, and if so
      possibly part of the run whose insertion is deferred. */
  predicate ContigFrame(o: Owner, r: nat, o': Owner, r': nat, passed: bool, deferred: bool) {
    if passed
    then o.Held? && r > 0 && r' == r - 1 && (deferred ==> r == 1) && o' == if r == 1 && !deferred then InExtents else Held
    else o' == o && r' == r && !deferred
  }

  ghost predicate ContigTo(o: seq<Owner>, r: seq<nat>, o': seq<Owner>, r': seq<nat>, start: nat, i: nat, fs: nat, fc: nat) {
    && |o| == |r| == |o'| == |r'| && fs + fc <= |r|
    && forall f | 0 <= f < |o| :: ContigFrame(o[f], r[f], o'[f], r'[f], start <= f < start + i, fs <= f < fs + fc)
  }

  lemma ContigStep(o: seq<Owner>, r: seq<nat>, o1: seq<Owner>, r1: seq<nat>, start: nat, i: nat, fs: nat, fc: nat)
    requires ContigTo(o, r, o1, r1, start, i, fs, fc) && start + i < |r| && o[start + i].Held? && r[start + i] > 0
    ensures forall f | fs <= f < fs + fc :: o1[f].Held? && r1[f] == 0
    ensures r1[start + i] == r[start + i] && o1[start + i].Held? && !(fs <= start + i < fs + fc)
    ensures var f := start + i; var r2 := r1[f := r1[f] - 1];
            if r[f] != 1 then ContigTo(o, r, o1, r2, start, i + 1, fs, fc)
            else if fc == 0 then ContigTo(o, r, o1, r2, start, i + 1, f, 1)
            else if fs + fc == f then ContigTo(o, r, o1, r2, start, i + 1, fs, fc + 1)
            else ContigTo(o, r, SetRange(o1, fs, fc, InExtents), r2, start, i + 1, f, 1)
  {
    var f := start + i;
    assert ContigFrame(o[f], r[f], o1[f], r1[f], false, fs <= f < fs + fc);
    forall g | fs <= g < fs + fc ensures o1[g].Held? && r1[g] == 0 {
      assert ContigFrame(o[g], r[g], o1[g], r1[g], start <= g < start + i, true);
    }
  }

  lemma SetRangeOutside(s: seq<nat>, f: nat, v: nat, a: nat, n: nat)
    requires a + n <= |s| && f < |s| && !(a <= f < a + n)
    ensures SetRange(s, a, n, 1)[f := v] == SetRange(s[f := v], a, n, 1)
  {
  }

  /** Counting one more frame as held on top of a deferred run of zeros. */
  lemma SetRangeMore(s: seq<nat>, f: nat, a: nat, n: nat)
    requires a + n <= |s| && f < |s| && !(a <= f < a + n) && s[f] == 1
    requires forall g | a <= g < a + n :: s[g] == 0
    ensures n == 0 ==> SetRange(s[f := 0], f, 1, 1) == SetRange(s, a, n, 1)
    ensures a + n == f ==> SetRange(s[f := 0], a, n + 1, 1) == SetRange(s, a, n, 1)
    ensures SetRange(s[f := 0], f, 1, 1) == SetRange(SetRange(s, a, n, 1), a, n, 0)
  {
  }

  /** How many frames of a run exist. */
  function InRange(total: nat, start: nat, n: nat): nat {
    if start >= total then 0 else if start + n <= total then n else total - start
  }

  lemma {:induction false} RunsMono(refs: seq<nat>, start: nat, i: nat, n: nat)
    requires i <= n && start + n <= |refs|
    ensures Runs(refs, start, i) <= Runs(refs, start, n)
  {
    if i < n { RunsMono(refs, start, i, n - 1); }
  }

  /** Inserting the last deferred run ends the loop. */
  lemma ContigEnd(o: seq<Owner>, r: seq<nat>, o1: seq<Owner>, r1: seq<nat>, start: nat, i: nat, fs: nat, fc: nat)
    requires ContigTo(o, r, o1, r1, start, i, fs, fc)
    ensures forall f | fs <= f < fs + fc :: o1[f].Held? && r1[f] == 0
    ensures ContigTo(o, r, SetRange(o1, fs, fc, InExtents), r1, start, i, 0, 0)
    ensures SetRange(SetRange(r1, fs, fc, 1), fs, fc, 0) == r1
  {
    forall f | fs <= f < fs + fc ensures o1[f].Held? && r1[f] == 0 {
      assert ContigFrame(o[f], r[f], o1[f], r1[f], start <= f < start + i, true);
    }
    var o2 := SetRange(o1, fs, fc, InExtents);
    forall f | 0 <= f < |o| ensures ContigFrame(o[f], r[f], o2[f], r1[f], start <= f < start + i, 0 <= f < 0) {
      assert ContigFrame(o[f], r[f], o1[f], r1[f], start <= f < start + i, fs <= f < fs + fc);
    }
  }

  /** Someone holds each frame of the run that exists. */
  predicate HeldTo(owner: seq<Owner>, start: nat, n: nat) {
    forall f | start <= f < start + n && f < |owner| :: owner[f].Held?
  }

  /** No frame of the run is in a magazine. */
  /** The count of a held frame outside the deferred run changes. */
  lemma SharedKeeps(free: seq<Extent>, refs: seq<nat>, m: seq<seq<nat>>, owner: seq<Owner>, f: nat, v: nat, fs: nat, fc: nat)
    requires fs + fc <= |refs| && f < |refs| && !(fs <= f < fs + fc) && Parts(free, SetRange(refs, fs, fc, 1), m, owner) && f < |owner|
    requires owner[f].Held? && 1 <= v <= 254
    ensures Parts(free, SetRange(refs[f := v], fs, fc, 1), m, owner)
  {
    SetRangeOutside(refs, f, v, fs, fc);
    RecountKeeps(free, SetRange(refs, fs, fc, 1), m, owner, f, v);
  }

  /** Every frame of the run that exists is held or in a magazine. */
  predicate TakenTo(owner: seq<Owner>, start: nat, n: nat) {
    forall f | start <= f < start + n && f < |owner| :: owner[f].Held? || owner[f].Cached?
  }

  /** Magazines set aside: their frames count as held. */
  function AllUncached(owner: seq<Owner>): (r: seq<Owner>)
    ensures |r| == |owner| && forall f | 0 <= f < |owner| :: r[f] == if owner[f].Cached? then Held else owner[f]
  {
    seq(|owner|, f requires 0 <= f < |owner| => if owner[f].Cached? then Held else owner[f])
  }

  function NoMags(): (m: seq<seq<nat>>)
    ensures |m| == MAX_CPUS && forall c | 0 <= c < MAX_CPUS :: m[c] == []
  {
    seq(MAX_CPUS, _ => [])
  }

  predicate NoneCached(owner: seq<Owner>, start: nat, n: nat) {
    forall f | start <= f < start + n && f < |owner| :: !owner[f].Cached?
  }

  /** Only the frames that exist matter. */
  lemma RangeSame(owner: seq<Owner>, start: nat, count: nat)
    ensures var n := InRange(|owner|, start, count);
            (NoneCached(owner, start, count) <==> NoneCached(owner, start, n)) && (TakenTo(owner, start, count) <==> TakenTo(owner, start, n))
  {
  }

  /** The magazines, or none if a frame of the run is in one. */
  function SetAside(owner: seq<Owner>, mags: seq<seq<nat>>, start: nat, n: nat): seq<seq<nat>> {
    if NoneCached(owner, start, n) then mags else NoMags()
  }

  function HeldInstead(owner: seq<Owner>, start: nat, n: nat): seq<Owner> {
    if NoneCached(owner, start, n) then owner else AllUncached(owner)
  }

  lemma SetAsideIs(free: seq<Extent>, refs: seq<nat>, mags: seq<seq<nat>>, owner: seq<Owner>, start: nat, n: nat)
    requires Parts(free, refs, mags, owner)
    ensures Parts(free, refs, SetAside(owner, mags, start, n), HeldInstead(owner, start, n))
    ensures NoneCached(HeldInstead(owner, start, n), start, n)
    ensures TakenTo(owner, start, n) <==> HeldTo(HeldInstead(owner, start, n), start, n)
  {
    var m, o := NoMags(), AllUncached(owner);
    forall f | 0 <= f < |o| ensures FrameOk(free, refs, m, o, f) { assert FrameOk(free, refs, mags, owner, f); }
  }

  /** The count tells a frame that someone holds from one that is free or reserved. */
  predicate Countable(o: Owner, r: nat) { !o.Cached? && RefOk(r, o) }

  /** The table grew by at most the runs of count-1 frames passed, the deferred one aside. */
  predicate RunsSoFar(r: seq<nat>, start: nat, i: nat, fs: nat, fc: nat, c: nat, c0: nat)
    requires start + i <= |r|
  {
    && c + (if fc > 0 then 1 else 0) <= c0 + Runs(r, start, i)
    && (i > 0 && r[start + i - 1] == 1 ==> fc > 0 && fs + fc == start + i)
  }

  lemma PowOne()
    ensures IsPow2(1)
  {
    assert Pow2(0) == 1;
  }

  lemma EmptyWhenNoFrame(s: seq<Extent>)
    requires Canonical(s)
    ensures NoAlignedRunIn(s, 1, 1) <==> s == []
  {
    if s != [] {
      var a := s[0].start;
      assert In(s[0], a) && Covers(s, a);
      assert a % 1 == 0 && !Interrupted(s, a, 1);
    } else {
      forall a: nat | a % 1 == 0 ensures Interrupted(s, a, 1) { assert !Covers(s, a); }
    }
  }

  // ---------------------------------------------------------------- conservation

  ghost function CoveredSet(s: seq<Extent>, total: nat): set<int> { set f: int | 0 <= f < total && Covers(s, f) }

  ghost function CachedBelow(owner: seq<Owner>, c: nat): set<int> {
    set f: int | 0 <= f < |owner| && owner[f].Cached? && owner[f].cpu < c
  }

  /** The frames that clients hold or that are reserved. */
  ghost function InUse(owner: seq<Owner>): set<int> {
    set f: int | 0 <= f < |owner| && (owner[f].Held? || owner[f].Reserved?)
  }

  lemma CoveredStep(s: seq<Extent>, e: Extent, total: nat)
    requires End(e) <= total && forall k | 0 <= k < |s| :: Gap(s[k], e)
    ensures |CoveredSet(s + [e], total)| == |CoveredSet(s, total)| + e.count
  {
    RunCard(e.start, e.count);
    forall f ensures f in CoveredSet(s + [e], total) <==> f in CoveredSet(s, total) || f in RunSet(e.start, e.count) {
      CoversSnoc(s, e, f);
    }
    forall f | f in CoveredSet(s, total) ensures f !in RunSet(e.start, e.count) {
      var k :| 0 <= k < |s| && In(s[k], f);
      assert Gap(s[k], e);
    }
    UnionCard(CoveredSet(s, total), RunSet(e.start, e.count), CoveredSet(s + [e], total));
  }

  /** The size of a canonical sequence is the number of frames it covers. */
  lemma {:induction false} SizeCounts(s: seq<Extent>, i: nat, total: nat)
    requires Canonical(s) && i <= |s| && forall f | Covers(s, f) :: 0 <= f < total
    ensures |CoveredSet(s[..i], total)| == Size(s[..i])
  {
    if i == 0 {
      assert CoveredSet(s[..i], total) == {};
    } else {
      SizeCounts(s, i - 1, total);
      var e := s[i - 1];
      assert In(e, End(e) - 1) && Covers(s, End(e) - 1);
      var p := s[..i - 1];
      assert s[..i] == p + [e];
      SnocSize(p, e);
      forall k | 0 <= k < |p| ensures Gap(p[k], e) { assert Gap(s[k], s[i - 1]); }
      CoveredStep(p, e, total);
    }
  }

  lemma CachedStep(free: seq<Extent>, refs: seq<nat>, mags: seq<seq<nat>>, owner: seq<Owner>, c: nat)
    requires Parts(free, refs, mags, owner) && c < MAX_CPUS
    ensures |CachedBelow(owner, c + 1)| == |CachedBelow(owner, c)| + |mags[c]|
  {
    var m := mags[c];
    forall i | 0 <= i < |m| ensures m[i] < |owner| && owner[m[i]] == Cached(c, i) {
      assert SlotOk(mags, owner, c, i);
    }
    DistinctCard(m);
    forall f ensures f in CachedBelow(owner, c + 1) <==> f in CachedBelow(owner, c) || f in Elements(m) {
      if f in CachedBelow(owner, c + 1) { assert FrameOk(free, refs, mags, owner, f); }
    }
    UnionCard(CachedBelow(owner, c), Elements(m), CachedBelow(owner, c + 1));
  }

  /** The frames cached below CPU c are as many as its magazines hold. */
  lemma {:induction false} CardsCount(free: seq<Extent>, refs: seq<nat>, mags: seq<seq<nat>>, owner: seq<Owner>, c: nat)
    requires Parts(free, refs, mags, owner) && c <= MAX_CPUS
    ensures |CachedBelow(owner, c)| == Cards(mags[..c])
  {
    if c == 0 {
      assert CachedBelow(owner, c) == {};
    } else {
      CardsCount(free, refs, mags, owner, c - 1);
      CachedStep(free, refs, mags, owner, c - 1);
      assert mags[..c][..c - 1] == mags[..c - 1];
    }
  }

  /** What pmm_get_used_memory builds on: used frames less cached ones are exactly the
      frames that clients hold or that are reserved. */
  lemma UsedIsHeldOrReserved(free: seq<Extent>, refs: seq<nat>, used: int, mags: seq<seq<nat>>, magTotal: int, owner: seq<Owner>)
    requires PmmOk(free, refs, used, mags, magTotal, owner) && Canonical(free)
    ensures |InUse(owner)| == used - magTotal
  {
    var A, B, C := CoveredSet(free, |owner|), CachedBelow(owner, MAX_CPUS), InUse(owner);
    SizeCounts(free, |free|, |owner|);
    CardsCount(free, refs, mags, owner, MAX_CPUS);
    RunCard(0, |owner|);
    assert free[..|free|] == free && mags[..MAX_CPUS] == mags;
    forall f | 0 <= f < |owner|
      ensures (f in A <==> owner[f].InExtents?) && (f in B <==> owner[f].Cached?)
    {
      assert FrameOk(free, refs, mags, owner, f);
    }
    UnionCard(A, B, A + B);
    UnionCard(A + B, C, RunSet(0, |owner|));
  }

  // ---------------------------------------------------------------- boot

  const PAGE_SIZE := 4096

  /** An entry of the boot loader's memory map; type 1 is usable. */
  datatype MmapEntry = MmapEntry(addr: nat, len: nat, typ: nat)

  function Frames(e: MmapEntry): Extent { Extent(e.addr / PAGE_SIZE, e.len / PAGE_SIZE) }

  predicate Usable(e: MmapEntry, f: int) { e.typ == 1 && In(Frames(e), f) }

  ghost predicate UsableIn(entries: seq<MmapEntry>, f: int) {
    exists i :: 0 <= i < |entries| && Usable(entries[i], f)
  }

  ghost predicate UsableApart(entries: seq<MmapEntry>) {
    forall i, j, f | 0 <= i < j < |entries| && Usable(entries[i], f) :: !Usable(entries[j], f)
  }

  ghost predicate EntriesBelow(entries: seq<MmapEntry>, total: nat) {
    forall i | 0 <= i < |entries| :: End(Frames(entries[i])) <= total
  }

  lemma FramesBelow(e: MmapEntry, top: nat)
    requires e.addr + e.len <= top
    ensures End(Frames(e)) <= top / PAGE_SIZE
  {
  }

  lemma EntriesMono(entries: seq<MmapEntry>, e: MmapEntry, top: nat, top': nat)
    requires EntriesBelow(entries, top / PAGE_SIZE) && top <= top' && e.addr + e.len <= top'
    ensures EntriesBelow(entries + [e], top' / PAGE_SIZE)
  {
    FramesBelow(e, top');
    assert top / PAGE_SIZE <= top' / PAGE_SIZE;
    forall i | 0 <= i < |entries| ensures End(Frames(entries[i])) <= top' / PAGE_SIZE {
    }
  }

  /** Where the highest entry ends. */
  function Top(entries: seq<MmapEntry>): nat {
    if entries == [] then 0
    else
      var e, t := entries[|entries| - 1], Top(entries[..|entries| - 1]);
      if e.addr + e.len > t then e.addr + e.len else t
  }

  /** The walk so far: exactly the usable frames are free, and top is the highest end. */
  ghost predicate Walked(table: ExtentTable, entries: seq<MmapEntry>, top: nat)
    reads table, table.extents
  {
    && table.Valid() && table.count <= |entries| && top == Top(entries) <= FRAME_LIMIT * PAGE_SIZE
    && EntriesBelow(entries, top / PAGE_SIZE) && forall f :: Covers(table.Free(), f) <==> UsableIn(entries, f)
  }

  /** One entry of it. */
  method FreeEntry(table: ExtentTable, entries: seq<MmapEntry>, i: nat, top: nat) returns (top': nat)
    requires i < |entries| <= MAX_EXTENTS && Walked(table, entries[..i], top) && UsableApart(entries)
    requires entries[i].addr + entries[i].len <= FRAME_LIMIT * PAGE_SIZE
    modifies table, table.extents
    ensures Walked(table, entries[..i + 1], top')
  {
    var e := entries[i];
    ghost var p, s := entries[..i], table.Free();
    assert entries[..i + 1] == p + [e] && (p + [e])[..i] == p;
    top' := if e.addr + e.len > top then e.addr + e.len else top;
    EntriesMono(p, e, top, top');
    forall f ensures UsableIn(p + [e], f) <==> UsableIn(p, f) || Usable(e, f) {
      UsableSnoc(p, e, f);
    }
    if e.typ == 1 {
      forall f | In(Frames(e), f) ensures !Covers(s, f) {
        forall k | 0 <= k < |p| ensures !Usable(p[k], f) { UsableOnce(entries, k, i, f); }
      }
      FramesBelow(e, FRAME_LIMIT * PAGE_SIZE);
      var panics := table.FreeRegion(Frames(e).start, Frames(e).count);
    }
  }

  /** pmm_init's walk over the memory map. */
  method FreeUsable(table: ExtentTable, entries: seq<MmapEntry>) returns (top: nat)
    requires table.Valid() && table.Free() == [] && |entries| <= MAX_EXTENTS && UsableApart(entries)
    requires forall i | 0 <= i < |entries| :: entries[i].addr + entries[i].len <= FRAME_LIMIT * PAGE_SIZE
    modifies table, table.extents
    ensures table.Valid() && table.count <= |entries| && top == Top(entries) <= FRAME_LIMIT * PAGE_SIZE
    ensures EntriesBelow(entries, top / PAGE_SIZE)
    ensures forall f :: Covers(table.Free(), f) <==> UsableIn(entries, f)
  {
    top := 0;
    for i := 0 to |entries|
      invariant Walked(table, entries[..i], top)
    {
      top := FreeEntry(table, entries, i, top);
    }
    assert entries[..|entries|] == entries;
  }

  lemma UsableOnce(entries: seq<MmapEntry>, i: nat, j: nat, f: int)
    requires UsableApart(entries) && i < j < |entries|
    ensures Usable(entries[i], f) ==> !Usable(entries[j], f)
  {
  }

  lemma UsableSnoc(p: seq<MmapEntry>, e: MmapEntry, f: int)
    ensures UsableIn(p + [e], f) <==> UsableIn(p, f) || Usable(e, f)
  {
    var q := p + [e];
    assert Usable(e, f) ==> Usable(q[|p|], f);
    if UsableIn(p, f) {
      var k :| 0 <= k < |p| && Usable(p[k], f);
      assert Usable(q[k], f);
    }
  }

  /** What pmm_init reserves: the first megabyte, the kernel, the boot information and the
      reference counts themselves. */
  predicate BootReserved(kernelEnd: nat, mbAddr: nat, mbSize: nat, total: nat, f: int)
    requires 0x100000 <= kernelEnd
  {
    || In(Extent(0, 256), f)
    || In(Extent(256, Pages(kernelEnd - 0x100000)), f)
    || In(Extent(mbAddr / PAGE_SIZE, Pages(mbSize)), f)
    || In(Extent(RefStart(kernelEnd, mbAddr, mbSize), Pages(total)), f)
  }

  function Pages(bytes: nat): nat { (bytes + PAGE_SIZE - 1) / PAGE_SIZE }

  function RefStart(kernelEnd: nat, mbAddr: nat, mbSize: nat): nat {
    Pages(if mbAddr + mbSize > kernelEnd then mbAddr + mbSize else kernelEnd)
  }

  // ---------------------------------------------------------------- boot, byte by byte

  /** The reference counts are at the least page boundary not below the kernel's end nor that of
      the boot information. */
  predicate CountsAt(s: nat, kernelEnd: nat, mbEnd: nat) {
    s % 4096 == 0 && s >= kernelEnd && s >= mbEnd && (s < kernelEnd + 4096 || s < mbEnd + 4096)
  }

  /** Byte b is in a frame that may be handed out. */
  predicate ByteFree(owner: seq<Owner>, b: nat) { b / 4096 < |owner| && owner[b / 4096].InExtents? }

  /** The boot information runs past the frames counted from its size alone. */
  predicate Spills(mbAddr: nat, mbSize: nat) { mbSize > 0 && mbAddr % 4096 + (mbSize - 1) % 4096 >= 4096 }

  lemma KernelReserved(kernelEnd: nat, mbAddr: nat, mbSize: nat, total: nat, f: nat)
    requires 0x100000 <= kernelEnd
    ensures f * 4096 < kernelEnd ==> BootReserved(kernelEnd, mbAddr, mbSize, total, f)
    ensures In(Extent(0, 256), f) || In(Extent(256, Pages(kernelEnd - 0x100000)), f) <==> f * 4096 < kernelEnd
  {
  }

  lemma RefStartIs(kernelEnd: nat, mbAddr: nat, mbSize: nat)
    ensures CountsAt(RefStart(kernelEnd, mbAddr, mbSize) * 4096, kernelEnd, mbAddr + mbSize)
  {
  }

  lemma CountsReserved(kernelEnd: nat, mbAddr: nat, mbSize: nat, total: nat, b: nat)
    requires 0x100000 <= kernelEnd
    ensures var s := RefStart(kernelEnd, mbAddr, mbSize) * 4096;
            s <= b < s + total ==> BootReserved(kernelEnd, mbAddr, mbSize, total, b / 4096)
  {
  }

  /** Of the boot information exactly the last frame is left out, exactly if it spills, and is
      reserved all the same exactly if the kernel has it. */
  lemma InfoReserved(kernelEnd: nat, mbAddr: nat, mbSize: nat, total: nat, b: nat)
    requires 0x100000 <= kernelEnd && mbAddr <= b < mbAddr + mbSize
    ensures var l := (mbAddr + mbSize - 1) / 4096;
            BootReserved(kernelEnd, mbAddr, mbSize, total, b / 4096) <==> !(Spills(mbAddr, mbSize) && b / 4096 == l && l * 4096 >= kernelEnd)
  {
    var f, l := b / 4096, (mbAddr + mbSize - 1) / 4096;
    InfoFrames(mbAddr, mbSize);
    KernelReserved(kernelEnd, mbAddr, mbSize, total, f);
    RefStartIs(kernelEnd, mbAddr, mbSize);
    assert mbAddr / 4096 <= f <= l < RefStart(kernelEnd, mbAddr, mbSize);
  }

  lemma InfoFrames(mbAddr: nat, mbSize: nat)
    requires mbSize > 0
    ensures (mbAddr + mbSize - 1) / 4096 == mbAddr / 4096 + Pages(mbSize) - 1 + if Spills(mbAddr, mbSize) then 1 else 0
  {
    var q, r := mbAddr / 4096, mbAddr % 4096;
    var u, v := (mbSize - 1) / 4096, (mbSize - 1) % 4096;
    assert mbAddr + mbSize - 1 == 4096 * (q + u) + (r + v) && Pages(mbSize) == u + 1;
  }

  /** The highest end of an entry. */
  lemma {:induction false} TopIs(entries: seq<MmapEntry>)
    ensures forall i | 0 <= i < |entries| :: entries[i].addr + entries[i].len <= Top(entries)
    ensures entries != [] ==> exists i :: 0 <= i < |entries| && entries[i].addr + entries[i].len == Top(entries)
  {
    if entries != [] {
      var p := entries[..|entries| - 1];
      TopIs(p);
      if i :| 0 <= i < |p| && p[i].addr + p[i].len == Top(p) { assert entries[i] == p[i]; }
      assert entries[|entries| - 1].addr + entries[|entries| - 1].len <= Top(entries);
      forall i | 0 <= i < |entries| ensures entries[i].addr + entries[i].len <= Top(entries) {
        if i < |p| { assert p[i] == entries[i]; }
      }
    }
  }

  /** Byte b belongs to a usable entry, its start rounded down to a page. */
  predicate ByteUsable(e: MmapEntry, b: nat) { e.typ == 1 && e.addr - e.addr % 4096 <= b < e.addr + e.len }

  lemma UsableBytes(e: MmapEntry, b: nat)
    ensures Usable(e, b / 4096) ==> ByteUsable(e, b)
    ensures e.addr % 4096 == 0 && e.typ == 1 && e.addr <= b - b % 4096 && b - b % 4096 + 4096 <= e.addr + e.len ==> Usable(e, b / 4096)
  {
  }

  /** What lies above the counts is not reserved. */
  lemma AboveCounts(kernelEnd: nat, mbAddr: nat, mbSize: nat, total: nat, f: nat)
    requires 0x100000 <= kernelEnd && f * 4096 >= RefStart(kernelEnd, mbAddr, mbSize) * 4096 + total
    ensures !BootReserved(kernelEnd, mbAddr, mbSize, total, f)
  {
    RefStartIs(kernelEnd, mbAddr, mbSize);
    KernelReserved(kernelEnd, mbAddr, mbSize, total, f);
    if mbSize > 0 { InfoFrames(mbAddr, mbSize); }
  }

  /** How the frames are owned after pmm_init. */
  ghost predicate BootOwners(entries: seq<MmapEntry>, kernelEnd: nat, mbAddr: nat, mbSize: nat, owner: seq<Owner>)
    requires 0x100000 <= kernelEnd
  {
    && |owner| == Top(entries) / 4096
    && forall f | 0 <= f < |owner| ::
         owner[f] == if UsableIn(entries, f) && !BootReserved(kernelEnd, mbAddr, mbSize, |owner|, f) then InExtents else Reserved
  }

  /** No byte of the kernel, of what lies below it, or of the counts is in a free frame. */
  lemma BootSafe(entries: seq<MmapEntry>, kernelEnd: nat, mbAddr: nat, mbSize: nat, owner: seq<Owner>)
    requires 0x100000 <= kernelEnd && BootOwners(entries, kernelEnd, mbAddr, mbSize, owner)
    ensures forall b: nat | b < kernelEnd :: !ByteFree(owner, b)
    ensures var s := RefStart(kernelEnd, mbAddr, mbSize) * 4096; forall b: nat | s <= b < s + |owner| :: !ByteFree(owner, b)
  {
    forall b: nat | b < kernelEnd ensures !ByteFree(owner, b) { KernelReserved(kernelEnd, mbAddr, mbSize, |owner|, b / 4096); }
    var s := RefStart(kernelEnd, mbAddr, mbSize) * 4096;
    forall b: nat | s <= b < s + |owner| ensures !ByteFree(owner, b) { CountsReserved(kernelEnd, mbAddr, mbSize, |owner|, b); }
  }

  /** Nor of the boot information, unless it spills into a usable frame above the kernel. */
  lemma InfoSafeExactly(entries: seq<MmapEntry>, kernelEnd: nat, mbAddr: nat, mbSize: nat, owner: seq<Owner>)
    requires 0x100000 <= kernelEnd && BootOwners(entries, kernelEnd, mbAddr, mbSize, owner)
    ensures (forall b: nat | mbAddr <= b < mbAddr + mbSize :: !ByteFree(owner, b))
        <==> !(Spills(mbAddr, mbSize) && var l := (mbAddr + mbSize - 1) / 4096; l * 4096 >= kernelEnd && UsableIn(entries, l))
  {
    forall b: nat | mbAddr <= b < mbAddr + mbSize
      ensures var l := (mbAddr + mbSize - 1) / 4096;
              ByteFree(owner, b) <==> Spills(mbAddr, mbSize) && b / 4096 == l && l * 4096 >= kernelEnd && UsableIn(entries, l)
    {
      InfoReserved(kernelEnd, mbAddr, mbSize, |owner|, b);
      if UsableIn(entries, b / 4096) { UsableBelow(entries, b / 4096); }
    }
    if mbSize > 0 && Spills(mbAddr, mbSize) {
      var last: nat := mbAddr + mbSize - 1;
      var l := last / 4096;
      assert ByteFree(owner, last) <==> l * 4096 >= kernelEnd && UsableIn(entries, l);
    }
  }

  lemma UsableBelow(entries: seq<MmapEntry>, f: nat)
    requires UsableIn(entries, f)
    ensures f < Top(entries) / 4096
  {
    var i :| 0 <= i < |entries| && Usable(entries[i], f);
    TopIs(entries);
    FramesBelow(entries[i], Top(entries));
  }

  /** A free frame is made of usable bytes; and every whole frame of a page-aligned usable entry
      above the counts is free. */
  lemma FreeIsUsable(entries: seq<MmapEntry>, kernelEnd: nat, mbAddr: nat, mbSize: nat, owner: seq<Owner>)
    requires 0x100000 <= kernelEnd && BootOwners(entries, kernelEnd, mbAddr, mbSize, owner)
    ensures forall b: nat | ByteFree(owner, b) :: exists i :: 0 <= i < |entries| && ByteUsable(entries[i], b)
    ensures forall i, b: nat | 0 <= i < |entries| && WholeAbove(entries[i], b, RefStart(kernelEnd, mbAddr, mbSize) * 4096 + |owner|) :: ByteFree(owner, b)
  {
    forall b: nat | ByteFree(owner, b) ensures exists i :: 0 <= i < |entries| && ByteUsable(entries[i], b) {
      var i :| 0 <= i < |entries| && Usable(entries[i], b / 4096);
      UsableBytes(entries[i], b);
    }
    forall i, b: nat | 0 <= i < |entries| && WholeAbove(entries[i], b, RefStart(kernelEnd, mbAddr, mbSize) * 4096 + |owner|) ensures ByteFree(owner, b) {
      UsableBytes(entries[i], b);
      UsableBelow(entries, b / 4096);
      AboveCounts(kernelEnd, mbAddr, mbSize, |owner|, b / 4096);
    }
  }

  /** The frame of byte b lies in the page-aligned usable entry and above the address. */
  predicate WholeAbove(e: MmapEntry, b: nat, above: nat) {
    && e.typ == 1 && e.addr % 4096 == 0 && e.addr <= b - b % 4096 && b - b % 4096 + 4096 <= e.addr + e.len
    && b - b % 4096 >= above
  }

  /** pmm_init's fill of the reference counts: free exactly on the extents. */
  method FillCounts(table: ExtentTable, total: nat) returns (refs: seq<nat>, free: nat)
    requires table.Valid() && forall f | Covers(table.Free(), f) :: 0 <= f < total
    ensures |refs| == total && free == Size(table.Free())
    ensures forall f | 0 <= f < total :: refs[f] == if Covers(table.Free(), f) then REF_FREE else REF_RESERVED
  {
    refs, free := seq(total, _ => REF_RESERVED), 0;
    ghost var s := table.Free();
    for i := 0 to table.count
      invariant |refs| == total && free == Size(s[..i])
      invariant forall f | 0 <= f < total :: refs[f] == if Covers(s[..i], f) then REF_FREE else REF_RESERVED
    {
      var e := table.extents[i];
      assert e == s[i] && s[..i + 1] == s[..i] + [e];
      SnocSize(s[..i], e);
      free := free + e.count;
      forall f ensures Covers(s[..i + 1], f) <==> Covers(s[..i], f) || In(e, f) {
        CoversSnoc(s[..i], e, f);
      }
      refs := ClearRange(refs, e.start, e.count, s);
    }
    assert s[..|s|] == s;
  }

  method ClearRange(refs: seq<nat>, a: nat, n: nat, ghost s: seq<Extent>) returns (refs': seq<nat>)
    requires Extent(a, n) in s && forall f | Covers(s, f) :: 0 <= f < |refs|
    ensures |refs'| == |refs|
    ensures forall f | 0 <= f < |refs| :: refs'[f] == if In(Extent(a, n), f) then REF_FREE else refs[f]
  {
    refs' := refs;
    for f := a to a + n
      invariant |refs'| == |refs|
      invariant forall g | 0 <= g < |refs| :: refs'[g] == if a <= g < f then REF_FREE else refs[g]
    {
      assert In(Extent(a, n), f) && Covers(s, f);
      refs' := refs'[f := REF_FREE];
    }
  }

  method CountOne(refs: seq<nat>, a: nat, n: nat) returns (refs': seq<nat>)
    requires a + n <= |refs|
    ensures refs' == SetRange(refs, a, n, 1)
  {
    refs' := refs;
    for i := 0 to n
      invariant |refs'| == |refs| && refs' == SetRange(refs, a, i, 1)
    {
      refs' := refs'[a + i := 1];
    }
  }

  /** A reservation at boot, when the array has room. */
  method Reserve(table: ExtentTable, lo: nat, n: nat)
    requires table.Valid() && table.count < MAX_EXTENTS
    modifies table, table.extents
    ensures table.Valid() && table.count <= old(table.count) + 1 && Uncovered(old(table.Free()), table.Free(), lo, lo + n)
  {
    table.ReserveRegion(lo, n);
  }

  /** pmm_init up to the fill of the counts. */
  method FreeAtBoot(table: ExtentTable, entries: seq<MmapEntry>, kernelEnd: nat, mbAddr: nat, mbSize: nat) returns (total: nat)
    requires table.Valid() && table.Free() == [] && |entries| + 4 <= MAX_EXTENTS && UsableApart(entries)
    requires 0x100000 <= kernelEnd
    requires forall i | 0 <= i < |entries| :: entries[i].addr + entries[i].len <= FRAME_LIMIT * PAGE_SIZE
    modifies table, table.extents
    ensures table.Valid() && total == Top(entries) / PAGE_SIZE <= FRAME_LIMIT
    ensures BootFree(entries, table.Free(), kernelEnd, mbAddr, mbSize, total)
    ensures forall f | Covers(table.Free(), f) :: 0 < f < total
  {
    var top := FreeUsable(table, entries);
    total := top / PAGE_SIZE;
    Reserve(table, 0, 256);
    Reserve(table, 256, Pages(kernelEnd - 0x100000));
    Reserve(table, mbAddr / PAGE_SIZE, Pages(mbSize));
    Reserve(table, RefStart(kernelEnd, mbAddr, mbSize), Pages(total));
    forall f | Covers(table.Free(), f) ensures 0 < f < total {
      var i :| 0 <= i < |entries| && Usable(entries[i], f);
      assert End(Frames(entries[i])) <= total;
    }
  }

  /** The extents have the usable frames that nothing reserves. */
  ghost predicate BootFree(entries: seq<MmapEntry>, free: seq<Extent>, kernelEnd: nat, mbAddr: nat, mbSize: nat, total: nat)
    requires 0x100000 <= kernelEnd
  {
    forall f :: Covers(free, f) <==> UsableIn(entries, f) && !BootReserved(kernelEnd, mbAddr, mbSize, total, f)
  }

  /** All that is said of bytes, together. */
  lemma BootBytes(entries: seq<MmapEntry>, free: seq<Extent>, kernelEnd: nat, mbAddr: nat, mbSize: nat, owner: seq<Owner>, counts: nat)
    requires 0x100000 <= kernelEnd && |owner| == Top(entries) / PAGE_SIZE
    requires BootFree(entries, free, kernelEnd, mbAddr, mbSize, |owner|) && owner == BootMap(free, |owner|)
    requires counts == RefStart(kernelEnd, mbAddr, mbSize) * PAGE_SIZE
    ensures BootOwners(entries, kernelEnd, mbAddr, mbSize, owner)
    ensures forall b: nat | b < kernelEnd :: !ByteFree(owner, b)
    ensures CountsAt(counts, kernelEnd, mbAddr + mbSize) && forall b: nat | counts <= b < counts + |owner| :: !ByteFree(owner, b)
    ensures (forall b: nat | mbAddr <= b < mbAddr + mbSize :: !ByteFree(owner, b))
        <==> !(Spills(mbAddr, mbSize) && var l := (mbAddr + mbSize - 1) / 4096; l * 4096 >= kernelEnd && UsableIn(entries, l))
    ensures forall b: nat | ByteFree(owner, b) :: exists i :: 0 <= i < |entries| && ByteUsable(entries[i], b)
    ensures forall i, b: nat | 0 <= i < |entries| && WholeAbove(entries[i], b, counts + |owner|) :: ByteFree(owner, b)
  {
    RefStartIs(kernelEnd, mbAddr, mbSize);
    BootSafe(entries, kernelEnd, mbAddr, mbSize, owner);
    InfoSafeExactly(entries, kernelEnd, mbAddr, mbSize, owner);
    FreeIsUsable(entries, kernelEnd, mbAddr, mbSize, owner);
  }

  ghost function BootMap(free: seq<Extent>, total: nat): (owner: seq<Owner>)
    ensures |owner| == total && forall f | 0 <= f < total :: owner[f] == if Covers(free, f) then InExtents else Reserved
  {
    seq(total, f requires 0 <= f < total => if Covers(free, f) then InExtents else Reserved)
  }

  lemma BootOk(free: seq<Extent>, refs: seq<nat>, mags: seq<seq<nat>>, owner: seq<Owner>)
    requires |owner| == |refs| <= FRAME_LIMIT && |mags| == MAX_CPUS && forall c | 0 <= c < MAX_CPUS :: mags[c] == []
    requires forall f | Covers(free, f) :: 0 < f < |owner|
    requires forall f | 0 <= f < |owner| :: refs[f] == if Covers(free, f) then REF_FREE else REF_RESERVED
    requires forall f | 0 <= f < |owner| :: owner[f] == if Covers(free, f) then InExtents else Reserved
    ensures Parts(free, refs, mags, owner) && Cards(mags) == 0
  {
    NoCards(mags);
    forall f | 0 <= f < |owner| ensures FrameOk(free, refs, mags, owner, f) { }
  }

  /** A client holds the frame, at count 1. */
  predicate Freeable(refs: seq<nat>, owner: seq<Owner>, f: nat) {
    0 < f < |refs| == |owner| && owner[f].Held? && refs[f] == 1
  }

  ghost predicate InSlot(mags: seq<seq<nat>>, f: nat, d: int, i: int) { 0 <= d < |mags| && 0 <= i < |mags[d]| && mags[d][i] == f }

  lemma CachedInSlot(free: seq<Extent>, refs: seq<nat>, mags: seq<seq<nat>>, owner: seq<Owner>, f: nat)
    requires Parts(free, refs, mags, owner) && f < |owner|
    ensures owner[f].Cached? ==> exists d, i :: InSlot(mags, f, d, i)
  {
    assert FrameOk(free, refs, mags, owner, f);
    if owner[f].Cached? { assert InSlot(mags, f, owner[f].cpu, owner[f].slot); }
  }

  /** Only such a frame can be added to a magazine. */
  lemma PushFits(free: seq<Extent>, refs: seq<nat>, mags: seq<seq<nat>>, owner: seq<Owner>, c: nat, f: nat, mags': seq<seq<nat>>, o: seq<Owner>)
    requires Parts(free, refs, mags, owner) && c < |mags| && mags' == mags[c := mags[c] + [f]] && Parts(free, refs, mags', o)
    ensures Freeable(refs, owner, f)
  {
    var n := |mags[c]|;
    assert mags'[c][n] == f && SlotOk(mags', o, c, n) && FrameOk(free, refs, mags', o, f);
    assert FrameOk(free, refs, mags, owner, f);
    CachedInSlot(free, refs, mags, owner, f);
    forall d, i ensures !InSlot(mags, f, d, i) { if 0 <= d < |mags| && 0 <= i < |mags[d]| { assert SlotOk(mags', o, d, i) && mags'[d][i] == mags[d][i]; } }
  }

  lemma PushFitsOnly(free: seq<Extent>, refs: seq<nat>, mags: seq<seq<nat>>, owner: seq<Owner>, c: nat, f: nat, mags': seq<seq<nat>>)
    requires Parts(free, refs, mags, owner) && c < |mags| && mags' == mags[c := mags[c] + [f]]
    ensures forall o :: Parts(free, refs, mags', o) ==> Freeable(refs, owner, f)
  {
    forall o | Parts(free, refs, mags', o) ensures Freeable(refs, owner, f) { PushFits(free, refs, mags, owner, c, f, mags', o); }
  }

  /** Whatever the ownership, a frame in a magazine has count 1. */
  lemma CachedCounts(free: seq<Extent>, refs: seq<nat>, mags: seq<seq<nat>>, c: nat, i: nat)
    requires c < |mags| && i < |mags[c]|
    ensures forall o :: Parts(free, refs, mags, o) ==> mags[c][i] < |refs| && refs[mags[c][i]] == 1
  {
    forall o | Parts(free, refs, mags, o) ensures mags[c][i] < |refs| && refs[mags[c][i]] == 1 {
      assert SlotOk(mags, o, c, i) && FrameOk(free, refs, mags, o, mags[c][i]);
    }
  }

  class Pmm {
    const table: ExtentTable
    const refAddr: nat
    var refs: seq<nat>
    var used: int
    var mags: seq<seq<nat>>
    var magTotal: int
    var nodes: seq<NumaNode>
    ghost var owner: seq<Owner>

    ghost predicate Ok()
      reads this, table, table.extents
    {
      && table.Valid() && |nodes| == MAX_NUMA_NODES
      && PmmOk(table.Free(), refs, used, mags, magTotal, owner)
    }

    /** pmm_init: exactly the usable frames outside the boot reservations are free. None of them
        has a byte of the kernel, of what lies below it or of the reference counts. */
    constructor (entries: seq<MmapEntry>, kernelEnd: nat, mbAddr: nat, mbSize: nat, nodes: seq<NumaNode>)
      requires |nodes| == MAX_NUMA_NODES && 0x100000 <= kernelEnd && |entries| + 4 <= MAX_EXTENTS
      requires UsableApart(entries)
      requires forall i | 0 <= i < |entries| :: entries[i].addr + entries[i].len <= FRAME_LIMIT * PAGE_SIZE
      ensures Ok() && forall c | 0 <= c < MAX_CPUS :: mags[c] == []
      ensures BootOwners(entries, kernelEnd, mbAddr, mbSize, owner) && fresh(table) && fresh(table.extents)
      ensures forall b: nat | b < kernelEnd :: !ByteFree(owner, b)
      ensures CountsAt(refAddr, kernelEnd, mbAddr + mbSize) && forall b: nat | refAddr <= b < refAddr + |refs| :: !ByteFree(owner, b)
      ensures (forall b: nat | mbAddr <= b < mbAddr + mbSize :: !ByteFree(owner, b))
          <==> !(Spills(mbAddr, mbSize) && var l := (mbAddr + mbSize - 1) / 4096; l * 4096 >= kernelEnd && UsableIn(entries, l))
      ensures forall b: nat | ByteFree(owner, b) :: exists i :: 0 <= i < |entries| && ByteUsable(entries[i], b)
      ensures forall i, b: nat | 0 <= i < |entries| && WholeAbove(entries[i], b, refAddr + |refs|) :: ByteFree(owner, b)
    {
      table := new ExtentTable();
      mags, magTotal := seq(MAX_CPUS, _ => []), 0;
      this.nodes := nodes;
      refAddr := RefStart(kernelEnd, mbAddr, mbSize) * PAGE_SIZE;
      new;
      var total: int := FreeAtBoot(table, entries, kernelEnd, mbAddr, mbSize);
      ghost var s := table.Free();
      var free;
      refs, free := FillCounts(table, total);
      used := total - free;
      owner := BootMap(s, |refs|);
      BootOk(s, refs, mags, owner);
      BootBytes(entries, s, kernelEnd, mbAddr, mbSize, owner, refAddr);
    }

    /** alloc_contiguous_internal followed by the count-1 stores, without the counters. */
    method TakeFrames(n: nat, align: nat, node: Option<NumaNode>, ghost m: seq<seq<nat>>) returns (panics: bool, r: Option<nat>)
      requires table.Valid() && Parts(table.Free(), refs, m, owner)
      requires n > 0 && IsPow2(align)
      modifies this`refs, this`owner, table, table.extents
      ensures panics ==> align > 1 && old(table.count) == MAX_EXTENTS && r.Some?
      ensures table.Valid() && (!panics ==> Parts(table.Free(), refs, m, owner) && |owner| == |old(owner)|)
      ensures table.count <= old(table.count) + if align == 1 then 0 else 1
      ensures r.Some? && !panics ==> 0 < r.value && r.value + n <= |owner| && r.value % align == 0
      ensures r.Some? && !panics ==> InNode(node, r.value, n) && Size(table.Free()) == Size(old(table.Free())) - n
      ensures r.Some? && !panics ==> Granted(old(owner), old(refs), owner, refs, r.value, n)
      ensures r.Some? && !panics ==> refs == SetRange(old(refs), r.value, n, 1) && owner == SetRange(old(owner), r.value, n, Held)
      ensures r.None? ==> refs == old(refs) && owner == old(owner) && table.Free() == old(table.Free())
      ensures node.None? ==> (r.None? <==> NoAlignedRunIn(old(table.Free()), n, align))
    {
      ghost var s := table.Free();
      panics, r := table.AllocContiguous(n, align, node);
      if r.None? || panics {
        return;
      }
      var a := r.value;
      TakeRun(s, table.Free(), a, n, refs, m, owner);
      forall f | a <= f < a + n ensures owner[f].InExtents? {
        assert FrameOk(s, refs, m, owner, f);
      }
      refs := CountOne(refs, a, n);
      owner := SetRange(owner, a, n, Held);
    }

    // ------------------------------------------------------------ magazines

    /** The one-by-one branch of magazine_refill. */
    method LoadSingles(cpu: nat) returns (loaded: seq<nat>)
      requires table.Valid() && Parts(table.Free(), refs, mags, owner) && cpu < MAX_CPUS && mags[cpu] == []
      modifies this`refs, this`owner, table, table.extents
      ensures table.Valid() && table.count <= old(table.count)
      ensures Parts(table.Free(), refs, mags[cpu := loaded], owner) && |loaded| <= MAGAZINE_SIZE
      ensures Size(table.Free()) == Size(old(table.Free())) - |loaded|
      ensures ClientsKept(old(owner), old(refs), owner, refs, 0, 0)
      ensures |loaded| == MAGAZINE_SIZE || table.Free() == []
    {
      loaded := [];
      assert mags[cpu := loaded] == mags;
      while |loaded| < MAGAZINE_SIZE
        invariant table.Valid() && table.count <= old(table.count) && |loaded| <= MAGAZINE_SIZE
        invariant Parts(table.Free(), refs, mags[cpu := loaded], owner)
        invariant Size(table.Free()) == Size(old(table.Free())) - |loaded|
        invariant ClientsKept(old(owner), old(refs), owner, refs, 0, 0)
      {
        var more;
        loaded, more := LoadOne(cpu, loaded);
        if !more {
          break;
        }
      }
    }

    method LoadOne(cpu: nat, loaded: seq<nat>) returns (loaded': seq<nat>, more: bool)
      requires table.Valid() && cpu < |mags| && |loaded| < MAGAZINE_SIZE
      requires Parts(table.Free(), refs, mags[cpu := loaded], owner)
      modifies this`refs, this`owner, table, table.extents
      ensures table.Valid() && table.count <= old(table.count)
      ensures Parts(table.Free(), refs, mags[cpu := loaded'], owner)
      ensures |loaded'| == |loaded| + if more then 1 else 0
      ensures Size(table.Free()) == Size(old(table.Free())) - if more then 1 else 0
      ensures ClientsKept(old(owner), old(refs), owner, refs, 0, 0)
      ensures !more ==> table.Free() == []
    {
      ghost var m := mags[cpu := loaded];
      EmptyWhenNoFrame(table.Free());
      PowOne();
      var panics, r := TakeFrames(1, 1, None, m);
      if r.None? {
        return loaded, false;
      }
      PushFrame(table.Free(), refs, m, owner, cpu, r.value);
      loaded' := loaded + [r.value];
      assert m[cpu := loaded'] == mags[cpu := loaded'];
      owner := owner[r.value := Cached(cpu, |loaded|)];
      return loaded', true;
    }

    /** The contiguous branch of magazine_refill. */
    method LoadRun(cpu: nat) returns (loaded: seq<nat>)
      requires table.Valid() && Parts(table.Free(), refs, mags, owner) && cpu < MAX_CPUS && mags[cpu] == []
      modifies this`refs, this`owner, table, table.extents
      ensures table.Valid() && table.count <= old(table.count) && |loaded| in {0, MAGAZINE_SIZE}
      ensures loaded == [] ==> table.Free() == old(table.Free())
      ensures Parts(table.Free(), refs, mags[cpu := loaded], owner)
      ensures Size(table.Free()) == Size(old(table.Free())) - |loaded|
      ensures ClientsKept(old(owner), old(refs), owner, refs, 0, 0)
    {
      PowOne();
      var panics, r := TakeFrames(MAGAZINE_SIZE, 1, None, mags);
      if r.None? {
        assert mags[cpu := []] == mags;
        return [];
      }
      loaded := seq(MAGAZINE_SIZE, i requires i >= 0 => r.value + i);
      PushRun(table.Free(), refs, mags, owner, cpu, r.value, loaded);
      owner := CachedRun(owner, cpu, r.value);
    }

    /** magazine_refill without the counters. */
    method Load(cpu: nat) returns (frames: seq<nat>)
      requires table.Valid() && Parts(table.Free(), refs, mags, owner) && cpu < MAX_CPUS && mags[cpu] == []
      modifies this`refs, this`owner, table, table.extents
      ensures table.Valid() && table.count <= old(table.count)
      ensures Parts(table.Free(), refs, mags[cpu := frames], owner)
      ensures Size(table.Free()) == Size(old(table.Free())) - |frames|
      ensures ClientsKept(old(owner), old(refs), owner, refs, 0, 0)
      ensures |frames| == MAGAZINE_SIZE || table.Free() == []
    {
      frames := LoadRun(cpu);
      if frames == [] {
        assert mags[cpu := []] == mags;
        frames := LoadSingles(cpu);
      }
    }

    /** magazine_refill of an empty magazine: whatever it loads moves from the extents to
        the magazine, and it loads nothing only when no frame is free. */
    method Refill(cpu: nat) returns (loaded: nat)
      requires Ok() && cpu < MAX_CPUS && mags[cpu] == []
      modifies this`refs, this`owner, this`mags, this`used, this`magTotal, table, table.extents
      ensures Ok() && table.count <= old(table.count)
      ensures ClientsKept(old(owner), old(refs), owner, refs, 0, 0)
      ensures loaded == |mags[cpu]| && mags == old(mags)[cpu := mags[cpu]]
      ensures loaded == MAGAZINE_SIZE || table.Free() == []
      ensures loaded == 0 <==> old(table.Free()) == []
    {
      SizeZero(table.Free());
      var frames := Load(cpu);
      CardsUpdate(mags, cpu, frames);
      mags := mags[cpu := frames];
      loaded := |frames|;
      used := used + loaded;
      magTotal := magTotal + loaded;
    }

    // ------------------------------------------------------------ allocation

    /** The order in which alloc_from_node tries the nodes. */
    static method NodeOrder(preferred: nat) returns (order: seq<nat>)
      requires preferred < MAX_NUMA_NODES
      ensures |order| == MAX_NUMA_NODES && order[0] == preferred
      ensures forall k | 0 <= k < |order| :: order[k] < MAX_NUMA_NODES
      ensures forall i: nat | i < MAX_NUMA_NODES :: i in order
    {
      order := [preferred];
      for i := 0 to MAX_NUMA_NODES
        invariant |order| == 1 + i - (if preferred < i then 1 else 0) && order[0] == preferred
        invariant forall k | 0 <= k < |order| :: order[k] < MAX_NUMA_NODES
        invariant forall j: nat | j < i :: j in order
      {
        if i != preferred {
          order := order + [i];
        }
      }
    }

    method TakeOne(node: Option<NumaNode>) returns (frame: nat)
      requires Ok()
      modifies this`refs, this`owner, this`used, table, table.extents
      ensures Ok() && table.count <= old(table.count)
      ensures frame != 0 ==> Granted(old(owner), old(refs), owner, refs, frame, 1)
      ensures frame == 0 ==> owner == old(owner) && refs == old(refs) && table.Free() == old(table.Free())
      ensures node.None? && frame == 0 ==> table.Free() == []
      ensures frame != 0 ==> old(table.Free()) != []
    {
      PowOne();
      EmptyWhenNoFrame(table.Free());
      SizeZero(table.Free());
      var panics, r := TakeFrames(1, 1, node, mags);
      if r.None? {
        return 0;
      }
      used := used + 1;
      frame := r.value;
    }

    /** alloc_from_node: whatever the node preferences, it fails only when nothing is free. */
    method AllocFromNode(preferred: nat) returns (frame: nat)
      requires Ok() && preferred < MAX_NUMA_NODES
      modifies this`refs, this`owner, this`used, table, table.extents
      ensures Ok() && table.count <= old(table.count)
      ensures frame != 0 ==> Granted(old(owner), old(refs), owner, refs, frame, 1)
      ensures frame == 0 ==> owner == old(owner) && refs == old(refs)
      ensures frame == 0 <==> old(table.Free()) == []
    {
      var order := NodeOrder(preferred);
      frame := 0;
      for k := 0 to MAX_NUMA_NODES
        invariant Ok() && table.count <= old(table.count) && frame == 0
        invariant owner == old(owner) && refs == old(refs) && table.Free() == old(table.Free())
      {
        if nodes[order[k]].active {
          frame := TakeOne(Some(nodes[order[k]]));
          if frame != 0 {
            return;
          }
        }
      }
      frame := TakeOne(None);
    }

    method PopMagazine(cpu: nat) returns (frame: nat)
      requires Ok() && cpu < MAX_CPUS && mags[cpu] != []
      modifies this`owner, this`mags, this`magTotal
      ensures Ok() && Granted(old(owner), old(refs), owner, refs, frame, 1)
      ensures mags == old(mags)[cpu := mags[cpu]] && old(mags)[cpu] == mags[cpu] + [frame]
    {
      PopFrame(table.Free(), refs, mags, owner, cpu);
      var top := |mags[cpu]| - 1;
      frame := mags[cpu][top];
      mags := mags[cpu := mags[cpu][..top]];
      magTotal := magTotal - 1;
      owner := owner[frame := Held];
    }

    /** pmm_alloc_frame: hands out a frame nobody held, and fails only when this CPU's
        magazine and the whole extent array are empty. */
    method AllocFrame(cpu: nat) returns (frame: nat)
      requires Ok()
      modifies this`refs, this`owner, this`mags, this`used, this`magTotal, table, table.extents
      ensures Ok() && table.count <= old(table.count)
      ensures frame != 0 ==> Granted(old(owner), old(refs), owner, refs, frame, 1)
      ensures frame == 0 ==> ClientsKept(old(owner), old(refs), owner, refs, 0, 0)
      ensures frame != 0 && cpu < MAX_CPUS ==> |mags[cpu]| < MAGAZINE_SIZE
      ensures frame == 0 <==> (cpu < MAX_CPUS ==> old(mags)[cpu] == []) && old(table.Free()) == []
      ensures cpu < MAX_CPUS && old(mags)[cpu] != [] ==> mags == old(mags)[cpu := mags[cpu]] && old(mags)[cpu] == mags[cpu] + [frame]
    {
      if cpu < MAX_CPUS {
        if mags[cpu] != [] {
          frame := PopMagazine(cpu);
          return;
        }
        ghost var owner0, refs0 := owner, refs;
        var loaded := Refill(cpu);
        if loaded > 0 {
          ghost var owner1, refs1 := owner, refs;
          frame := PopMagazine(cpu);
          GrantedAfter(owner0, refs0, owner1, refs1, owner, refs, frame);
          return;
        }
        ghost var owner1, refs1 := owner, refs;
        frame := AllocFromNode(0);
        return;
      }
      frame := AllocFromNode(0);
    }

    /** pmm_alloc_contiguous_aligned: a whole aligned run that nobody held, or null exactly
        when the count is 0 or no aligned run of free frames exists. Only with a full extent array
        can it stop the kernel. */
    method AllocContiguousAligned(count: nat, alignPages: nat) returns (panics: bool, frame: nat)
      requires Ok() && (alignPages == 0 || IsPow2(alignPages))
      modifies this`refs, this`owner, this`used, table, table.extents
      ensures panics ==> alignPages > 1 && old(table.count) == MAX_EXTENTS
      ensures !panics ==> Ok() && mags == old(mags)
      ensures frame != 0 && !panics ==> Granted(old(owner), old(refs), owner, refs, frame, count)
      ensures frame != 0 && !panics && alignPages != 0 ==> frame % alignPages == 0
      ensures frame == 0 ==> !panics && owner == old(owner) && refs == old(refs)
      ensures frame == 0 <==> count == 0 || NoAlignedRunIn(old(table.Free()), count, if alignPages == 0 then 1 else alignPages)
    {
      if count == 0 {
        return false, 0;
      }
      var align := if alignPages == 0 then 1 else alignPages;
      PowOne();
      var r;
      panics, r := TakeFrames(count, align, None, mags);
      if r.None? {
        return false, 0;
      }
      if panics {
        return true, 1;
      }
      used := used + count;
      frame := r.value;
    }

    // ------------------------------------------------------------ reference counts

    /** pmm_inc_ref. It looks at counts only: on a frame that is free or in a magazine it leaves
        a count that no ownership agrees with, and on every other it keeps the invariant. */
    method IncRef(frame: nat)
      requires Ok()
      modifies this`refs
      ensures refs == if 0 < frame < |old(refs)| && old(refs)[frame] < 254 then old(refs)[frame := old(refs)[frame] + 1] else old(refs)
      ensures Ok() <==> !(0 < frame < |owner| && (owner[frame].InExtents? || owner[frame].Cached?))
    {
      if frame == 0 || frame >= |refs| {
        return;
      }
      assert FrameOk(table.Free(), refs, mags, owner, frame);
      if refs[frame] == REF_RESERVED {
        return;
      }
      if refs[frame] < 254 {
        if owner[frame].Held? {
          RecountKeeps(table.Free(), refs, mags, owner, frame, refs[frame] + 1);
        }
        refs := refs[frame := refs[frame] + 1];
        assert !owner[frame].Held? ==> !FrameOk(table.Free(), refs, mags, owner, frame);
      }
    }

    /** No assignment of frames to owners agrees with the counts and magazines. */
    ghost predicate Broken()
      reads this, table, table.extents
    {
      table.Valid() && forall o :: !Parts(table.Free(), refs, mags, o)
    }

    /** One count less, at zero the frame is free again; unless the frame was in a magazine, and
        then nothing is right any more. */
    ghost predicate DropResult(o: seq<Owner>, r: seq<nat>, frame: nat, count: nat)
      reads this, table, table.extents
    {
      |o| == |r| && if DropAllowed(r, o, frame) then Ok() && Dropped(o, r, owner, refs, frame) && table.count <= count + 1 else Broken()
    }

    /** The books after the last reference to a frame has gone. */
    ghost method Settle(frame: nat, s: seq<Extent>, r: seq<nat>)
      requires table.Valid() && |nodes| == MAX_NUMA_NODES && PmmOk(s, r, used + 1, mags, magTotal, owner)
      requires 0 < frame < |r| && r[frame] == 1 && refs == r[frame := 0] && Grew(s, table.Free(), frame, frame + 1)
      modifies this`owner
      ensures |old(owner)| == |r| && if old(owner)[frame].Held? then Ok() && owner == old(owner)[frame := InExtents] else Broken()
    {
      assert FrameOk(s, r, mags, owner, frame);
      if owner[frame].Held? {
        GiveRun(s, table.Free(), frame, 1, r, mags, owner);
        assert refs == SetRange(r, frame, 1, 0) && owner[frame := InExtents] == SetRange(owner, frame, 1, InExtents);
        owner := owner[frame := InExtents];
      } else {
        CachedCounts(table.Free(), refs, mags, owner[frame].cpu, owner[frame].slot);
      }
    }

    /** The store, and at zero the free, that free_frame_locked and pmm_dec_ref share. */
    method DropRef(frame: nat) returns (panics: bool)
      requires Ok() && 0 < frame < |refs| && refs[frame] != REF_FREE && refs[frame] != REF_RESERVED
      modifies this`refs, this`owner, this`used, table, table.extents
      ensures panics <==> old(refs)[frame] == 1 && old(table.count) == MAX_EXTENTS
      ensures !panics ==> DropResult(old(owner), old(refs), frame, old(table.count))
    {
      panics := false;
      ghost var s, r := table.Free(), refs;
      assert FrameOk(s, refs, mags, owner, frame);
      if refs[frame] - 1 != REF_FREE {
        RecountKeeps(s, refs, mags, owner, frame, refs[frame] - 1);
        refs := refs[frame := refs[frame] - 1];
        return;
      }
      refs := refs[frame := refs[frame] - 1];
      panics := table.FreeRegion(frame, 1);
      if panics {
        return;
      }
      used := used - 1;
      Settle(frame, s, r);
    }

    /** free_frame_locked. A frame that is free or reserved stops the kernel, and so does a last
        reference when the extent array is full. */
    method FreeFrameLocked(frame: nat) returns (panics: bool)
      requires Ok()
      modifies this`refs, this`owner, this`used, table, table.extents
      ensures panics <==>
          0 < frame < |old(refs)| && (old(refs)[frame] in {REF_FREE, REF_RESERVED} || (old(refs)[frame] == 1 && old(table.count) == MAX_EXTENTS))
      ensures !panics ==> DropResult(old(owner), old(refs), frame, old(table.count))
    {
      if frame == 0 || frame >= |refs| {
        return false;
      }
      if refs[frame] == REF_FREE || refs[frame] == REF_RESERVED {
        return true;
      }
      panics := DropRef(frame);
    }

    /** pmm_dec_ref: as free_frame_locked, but a reserved frame is left alone. */
    method DecRef(frame: nat) returns (panics: bool)
      requires Ok()
      modifies this`refs, this`owner, this`used, table, table.extents
      ensures panics <==>
          0 < frame < |old(refs)| && (old(refs)[frame] == REF_FREE || (old(refs)[frame] == 1 && old(table.count) == MAX_EXTENTS))
      ensures !panics ==> DropResult(old(owner), old(refs), frame, old(table.count))
    {
      if frame == 0 || frame >= |refs| || refs[frame] == REF_RESERVED {
        return false;
      }
      if refs[frame] == REF_FREE {
        return true;
      }
      panics := DropRef(frame);
    }

    // ------------------------------------------------------------ freeing

    method FlushOne(cpu: nat, i: nat, frame: nat, ghost s: seq<Extent>, ghost m: seq<seq<nat>>, ghost o: seq<Owner>, ghost r: seq<nat>)
      returns (panics: bool)
      requires Ok() && Parts(s, r, m, o)
      requires cpu < MAX_CPUS && i < |m[cpu]| && frame == m[cpu][i] && FlushedTo(o, r, owner, refs, cpu, i)
      modifies this`refs, this`owner, this`used, table, table.extents
      ensures panics ==> old(table.count) == MAX_EXTENTS
      ensures !panics ==> Ok() && table.count <= old(table.count) + 1 && FlushedTo(o, r, owner, refs, cpu, i + 1)
    {
      FlushNext(s, m, o, r, cpu, i, owner, refs);
      panics := FreeFrameLocked(frame);
      if !panics {
        FlushStep(s, m, o, r, cpu, i, old(owner), old(refs), owner, refs);
      }
    }

    /** magazine_flush: every frame of the magazine goes back to the extents. Both locks are
        held throughout, so emptying the magazine first cannot be seen. It stops the kernel only
        if the extent array has no room for so many more. */
    method Flush(cpu: nat) returns (panics: bool)
      requires Ok() && cpu < MAX_CPUS
      modifies this`refs, this`owner, this`mags, this`used, this`magTotal, table, table.extents
      ensures panics ==> old(table.count + |mags[cpu]|) > MAX_EXTENTS
      ensures !panics ==> Ok() && mags == old(mags)[cpu := []]
      ensures !panics ==> ClientsKept(old(owner), old(refs), owner, refs, 0, 0)
      ensures !panics ==> forall f | 0 <= f < |owner| && old(owner)[f].Cached? && old(owner)[f].cpu == cpu :: owner[f].InExtents?
    {
      var frames := mags[cpu];
      UncacheAll(table.Free(), refs, mags, owner, cpu);
      FlushStart(table.Free(), refs, mags, owner, cpu);
      mags := mags[cpu := []];
      magTotal := magTotal - |frames|;
      owner := Uncached(owner, cpu);
      ghost var s, m, o, r := old(table.Free()), old(mags), old(owner), old(refs);
      for i := 0 to |frames|
        invariant Ok() && mags == old(mags)[cpu := []] && table.count <= old(table.count) + i
        invariant FlushedTo(o, r, owner, refs, cpu, i)
      {
        panics := FlushOne(cpu, i, frames[i], s, m, o, r);
        if panics {
          return;
        }
      }
      FlushDone(s, m, o, r, cpu, owner, refs);
      panics := false;
    }

    /** The store into a magazine, which looks at nothing but its count. */
    method PushMagazine(cpu: nat, frame: nat)
      requires Ok() && cpu < MAX_CPUS && |mags[cpu]| < MAGAZINE_SIZE
      modifies this`owner, this`mags, this`magTotal
      ensures mags == old(mags)[cpu := old(mags)[cpu] + [frame]] && magTotal == old(magTotal) + 1
      ensures Freeable(refs, old(owner), frame) ==> Ok() && owner == old(owner)[frame := Cached(cpu, |old(mags)[cpu]|)]
      ensures !Freeable(refs, old(owner), frame) ==> Broken()
    {
      if Freeable(refs, owner, frame) {
        PushFrame(table.Free(), refs, mags, owner, cpu, frame);
        owner := owner[frame := Cached(cpu, |mags[cpu]|)];
      } else {
        PushFitsOnly(table.Free(), refs, mags, owner, cpu, frame, mags[cpu := mags[cpu] + [frame]]);
      }
      mags := mags[cpu := mags[cpu] + [frame]];
      magTotal := magTotal + 1;
    }

    /** pmm_free_frame. On a CPU with a magazine the frame leaves the client and nobody else
        notices if the client holds it at count 1; otherwise nothing is right any more. Past
        the last magazine it is free_frame_locked. A flush stops the kernel only if the extent
        array has no room for the magazine. */
    method FreeFrame(cpu: nat, frame: nat) returns (panics: bool)
      requires Ok()
      modifies this`refs, this`owner, this`mags, this`used, this`magTotal, table, table.extents
      ensures frame == 0 ==> !panics && Ok() && owner == old(owner) && refs == old(refs)
      ensures cpu >= MAX_CPUS && !panics ==> DropResult(old(owner), old(refs), frame, old(table.count))
      ensures cpu < MAX_CPUS && frame != 0 && !panics && Freeable(old(refs), old(owner), frame) ==>
          Ok() && frame < |owner| && owner[frame].Cached? && ClientsKept(old(owner), old(refs), owner, refs, frame, 1)
      ensures cpu < MAX_CPUS && frame != 0 && !panics && !Freeable(old(refs), old(owner), frame) ==> Broken()
      ensures cpu < MAX_CPUS && panics ==> old(|mags[cpu]|) == MAGAZINE_SIZE && old(table.count) + MAGAZINE_SIZE > MAX_EXTENTS
      ensures cpu >= MAX_CPUS ==> (panics <==>
          0 < frame < |old(refs)| && (old(refs)[frame] in {REF_FREE, REF_RESERVED} || (old(refs)[frame] == 1 && old(table.count) == MAX_EXTENTS)))
    {
      if frame == 0 {
        return false;
      }
      if cpu < MAX_CPUS {
        if |mags[cpu]| == MAGAZINE_SIZE {
          ghost var o, r := owner, refs;
          panics := Flush(cpu);
          if panics {
            return;
          }
          assert frame < |o| ==> SameFor(o[frame], r[frame], owner[frame], refs[frame]);
        }
        PushMagazine(cpu, frame);
        return false;
      }
      panics := FreeFrameLocked(frame);
    }

    /** Inserting the deferred run of pmm_free_contiguous; r counts its frames as held. */
    method FreeDeferred(start: nat, n: nat, ghost r: seq<nat>, ghost m: seq<seq<nat>>) returns (panics: bool)
      requires table.Valid() && start + n <= |owner|
      requires Parts(table.Free(), r, m, owner)
      requires forall f | start <= f < start + n :: owner[f].Held?
      modifies this`owner, table, table.extents
      ensures panics ==> old(table.count) == MAX_EXTENTS
      ensures !panics ==> table.Valid() && table.count <= old(table.count) + 1
      ensures !panics ==> Size(table.Free()) == Size(old(table.Free())) + n
      ensures !panics ==> owner == SetRange(old(owner), start, n, InExtents)
      ensures !panics ==> Parts(table.Free(), SetRange(r, start, n, 0), m, owner)
    {
      ghost var s := table.Free();
      forall f | start <= f < start + n ensures !Covers(s, f) {
        assert FrameOk(s, r, m, owner, f);
      }
      panics := table.FreeRegion(start, n);
      if panics {
        return;
      }
      GiveRun(s, table.Free(), start, n, r, m, owner);
      owner := SetRange(owner, start, n, InExtents);
    }

    /** The loop state of pmm_free_contiguous after i frames, run [fs, fs + fc) deferred; m are
        the magazines, or empty ones if some frame of the run is in a magazine. */
    ghost predicate Freeing(o: seq<Owner>, r: seq<nat>, m: seq<seq<nat>>, start: nat, i: nat, fs: nat, fc: nat)
      reads this, table, table.extents
    {
      && table.Valid() && |nodes| == MAX_NUMA_NODES && magTotal == Cards(mags)
      && ContigTo(o, r, owner, refs, start, i, fs, fc)
      && Parts(table.Free(), SetRange(refs, fs, fc, 1), m, owner)
      && used == |owner| - Size(table.Free()) - fc
    }

    /** A frame whose count stays positive. */
    method StepShared(start: nat, i: nat, fs: nat, fc: nat, ghost o: seq<Owner>, ghost r: seq<nat>, ghost m: seq<seq<nat>>)
      requires Freeing(o, r, m, start, i, fs, fc) && start + i < |r| && o[start + i].Held? && 1 < r[start + i] < 255
      modifies this`refs
      ensures Freeing(o, r, m, start, i + 1, fs, fc)
    {
      ContigStep(o, r, owner, refs, start, i, fs, fc);
      SharedKeeps(table.Free(), refs, m, owner, start + i, refs[start + i] - 1, fs, fc);
      refs := refs[start + i := refs[start + i] - 1];
    }

    /** A frame whose count drops to zero and that joins the deferred run or starts one. */
    method StepExtend(start: nat, i: nat, fs: nat, fc: nat, ghost o: seq<Owner>, ghost r: seq<nat>, ghost m: seq<seq<nat>>) returns (fs': nat, fc': nat)
      requires Freeing(o, r, m, start, i, fs, fc) && start + i < |r| && o[start + i].Held? && r[start + i] == 1
      requires fc == 0 || fs + fc == start + i
      modifies this`refs, this`used
      ensures Freeing(o, r, m, start, i + 1, fs', fc') && fc' > 0 && fs' + fc' == start + i + 1
    {
      var frame := start + i;
      ContigStep(o, r, owner, refs, start, i, fs, fc);
      SetRangeMore(refs, frame, fs, fc);
      refs := refs[frame := refs[frame] - 1];
      used := used - 1;
      if fc == 0 {
        fs', fc' := frame, 1;
      } else {
        fs', fc' := fs, fc + 1;
      }
    }

    /** A frame whose count drops to zero away from the deferred run: that run is inserted
        and a new one starts. */
    method StepInsert(start: nat, i: nat, fs: nat, fc: nat, ghost o: seq<Owner>, ghost r: seq<nat>, ghost m: seq<seq<nat>>) returns (panics: bool, fs': nat, fc': nat)
      requires Freeing(o, r, m, start, i, fs, fc) && start + i < |r| && o[start + i].Held? && r[start + i] == 1
      requires fc > 0 && fs + fc != start + i
      modifies this`refs, this`owner, this`used, table, table.extents
      ensures panics ==> old(table.count) == MAX_EXTENTS
      ensures !panics ==> Freeing(o, r, m, start, i + 1, fs', fc') && fc' > 0 && fs' + fc' == start + i + 1 && table.count <= old(table.count) + 1
    {
      var frame := start + i;
      ContigStep(o, r, owner, refs, start, i, fs, fc);
      SetRangeMore(refs, frame, fs, fc);
      ghost var r1 := SetRange(refs, fs, fc, 1);
      refs := refs[frame := refs[frame] - 1];
      fs', fc' := frame, 1;
      panics := FreeDeferred(fs, fc, r1, m);
      if panics {
        return;
      }
      used := used - 1;
    }

    /** One round of the loop, on a frame that someone holds. It stops the kernel only if the
        extent array has no room for the runs of frames that become free. */
    method FreeHeld(start: nat, i: nat, fs: nat, fc: nat, ghost o: seq<Owner>, ghost r: seq<nat>, ghost m: seq<seq<nat>>, ghost c0: nat)
      returns (panics: bool, fs': nat, fc': nat)
      requires Freeing(o, r, m, start, i, fs, fc) && start + i < |r| && RunsSoFar(r, start, i, fs, fc, table.count, c0)
      requires o[start + i].Held? && 0 < r[start + i] < 255 && refs[start + i] == r[start + i]
      modifies this`refs, this`owner, this`used, table, table.extents
      ensures panics ==> c0 + Runs(r, start, i + 1) > MAX_EXTENTS
      ensures !panics ==> Freeing(o, r, m, start, i + 1, fs', fc') && RunsSoFar(r, start, i + 1, fs', fc', table.count, c0)
    {
      panics := false;
      if refs[start + i] != 1 {
        StepShared(start, i, fs, fc, o, r, m);
        fs', fc' := fs, fc;
      } else if fc == 0 || fs + fc == start + i {
        fs', fc' := StepExtend(start, i, fs, fc, o, r, m);
      } else {
        panics, fs', fc' := StepInsert(start, i, fs, fc, o, r, m);
      }
    }

    /** One round of the loop. */
    method FreeStep(start: nat, i: nat, fs: nat, fc: nat, ghost o: seq<Owner>, ghost r: seq<nat>, ghost m: seq<seq<nat>>, ghost c0: nat)
      returns (panics: bool, fs': nat, fc': nat)
      requires Freeing(o, r, m, start, i, fs, fc) && start + i < |r| && RunsSoFar(r, start, i, fs, fc, table.count, c0)
      requires Countable(o[start + i], r[start + i])
      modifies this`refs, this`owner, this`used, table, table.extents
      ensures !o[start + i].Held? ==> panics
      ensures panics ==> !o[start + i].Held? || c0 + Runs(r, start, i + 1) > MAX_EXTENTS
      ensures !panics ==> |refs| == |r| && Freeing(o, r, m, start, i + 1, fs', fc') && RunsSoFar(r, start, i + 1, fs', fc', table.count, c0)
    {
      assert ContigFrame(o[start + i], r[start + i], owner[start + i], refs[start + i], false, fs <= start + i < fs + fc);
      if refs[start + i] == REF_FREE || refs[start + i] == REF_RESERVED {
        return true, fs, fc;
      }
      panics, fs', fc' := FreeHeld(start, i, fs, fc, o, r, m, c0);
    }

    lemma StartsFreeing(m: seq<seq<nat>>, start: nat, n: nat)
      requires table.Valid() && |nodes| == MAX_NUMA_NODES && magTotal == Cards(mags) && used == |owner| - Size(table.Free())
      requires Parts(table.Free(), refs, m, owner) && NoneCached(owner, start, n) && start + n <= |refs|
      ensures Freeing(owner, refs, m, start, 0, 0, 0) && forall f | start <= f < start + n :: Countable(owner[f], refs[f])
    {
      assert SetRange(refs, 0, 0, 1) == refs;
      forall f | start <= f < start + n ensures Countable(owner[f], refs[f]) { assert FrameOk(table.Free(), refs, m, owner, f); }
    }

    lemma StopsAll(o: seq<Owner>, r: seq<nat>, start: nat, i: nat, n: nat, c0: nat)
      requires i < n && start + n <= |o| && start + n <= |r|
      requires !o[start + i].Held? || c0 + Runs(r, start, i + 1) > MAX_EXTENTS
      ensures !HeldTo(o, start, n) || c0 + Runs(r, start, n) > MAX_EXTENTS
    {
      RunsMono(r, start, i + 1, n);
    }

    method FreeLoop(start: nat, count: nat, ghost o: seq<Owner>, ghost r: seq<nat>, ghost m: seq<seq<nat>>, ghost n: nat) returns (panics: bool, fs: nat, fc: nat)
      requires Freeing(o, r, m, start, 0, 0, 0) && start < |r| && n == InRange(|r|, start, count)
      requires forall f | start <= f < start + n :: Countable(o[f], r[f])
      modifies this`refs, this`owner, this`used, table, table.extents
      ensures !HeldTo(o, start, n) ==> panics
      ensures panics ==> !HeldTo(o, start, n) || old(table.count) + Runs(r, start, n) > MAX_EXTENTS
      ensures !panics ==> Freeing(o, r, m, start, n, fs, fc) && RunsSoFar(r, start, n, fs, fc, table.count, old(table.count))
    {
      var i: nat := 0;
      fs, fc := 0, 0;
      while i < count && start + i < |refs|
        invariant |refs| == |r| && i <= n && HeldTo(o, start, i)
        invariant Freeing(o, r, m, start, i, fs, fc) && RunsSoFar(r, start, i, fs, fc, table.count, old(table.count))
        decreases count - i
      {
        panics, fs, fc := FreeStep(start, i, fs, fc, o, r, m, old(table.count));
        if panics {
          StopsAll(o, r, start, i, n, old(table.count));
          return;
        }
        i := i + 1;
      }
      assert i == n;
      panics := false;
    }

    method FreeLastRun(start: nat, n: nat, fs: nat, fc: nat, ghost o: seq<Owner>, ghost r: seq<nat>, ghost m: seq<seq<nat>>) returns (panics: bool)
      requires Freeing(o, r, m, start, n, fs, fc)
      modifies this`owner, table, table.extents
      ensures panics ==> fc > 0 && old(table.count) == MAX_EXTENTS
      ensures !panics ==> Freeing(o, r, m, start, n, 0, 0)
    {
      panics := false;
      ContigEnd(o, r, owner, refs, start, n, fs, fc);
      if fc > 0 {
        panics := FreeDeferred(fs, fc, SetRange(refs, fs, fc, 1), m);
      } else {
        assert SetRange(refs, fs, fc, 1) == refs && SetRange(owner, fs, fc, InExtents) == owner;
      }
      assert SetRange(refs, 0, 0, 1) == refs;
    }

    /** pmm_free_contiguous: every frame of the run that exists loses one count, and exactly
        those at count 1 become free; with a frame of a magazine among them nothing is right any
        more. It stops the kernel if one of them is free or reserved, and otherwise only if the
        extent array has no room for the runs that become free. */
    method FreeContiguous(start: nat, count: nat) returns (panics: bool)
      requires Ok()
      modifies this`refs, this`owner, this`used, table, table.extents
      ensures start != 0 && !TakenTo(old(owner), start, count) ==> panics
      ensures panics ==>
          && 0 < start < |old(refs)|
          && (!TakenTo(old(owner), start, count) || old(table.count) + Runs(old(refs), start, InRange(|old(refs)|, start, count)) > MAX_EXTENTS)
      ensures !panics && (start == 0 || NoneCached(old(owner), start, count)) ==>
          && Ok() && mags == old(mags)
          && ContigTo(old(owner), old(refs), owner, refs, start, if start == 0 then 0 else InRange(|old(refs)|, start, count), 0, 0)
      ensures !panics && start != 0 && !NoneCached(old(owner), start, count) ==> Broken()
    {
      if start == 0 || count == 0 || start >= |refs| {
        return false;
      }
      ghost var n := InRange(|refs|, start, count);
      RangeSame(owner, start, count);
      panics := FreeExisting(start, count, n);
    }

    /** The loop and the last insertion, on a run that starts at an existing frame; n of its
        frames exist. */
    method FreeExisting(start: nat, count: nat, ghost n: nat) returns (panics: bool)
      requires Ok() && 0 < start < |refs| && n == InRange(|refs|, start, count)
      modifies this`refs, this`owner, this`used, table, table.extents
      ensures !TakenTo(old(owner), start, n) ==> panics
      ensures panics ==> !TakenTo(old(owner), start, n) || old(table.count) + Runs(old(refs), start, n) > MAX_EXTENTS
      ensures !panics && NoneCached(old(owner), start, n) ==> Ok() && ContigTo(old(owner), old(refs), owner, refs, start, n, 0, 0)
      ensures !panics && !NoneCached(old(owner), start, n) ==> Broken()
    {
      ghost var was, s, r := owner, table.Free(), refs;
      ghost var m, o := SetAside(owner, mags, start, n), HeldInstead(owner, start, n);
      SetAsideIs(s, refs, mags, owner, start, n);
      owner := o;
      StartsFreeing(m, start, n);
      var fs, fc;
      panics, fs, fc := FreeLoop(start, count, o, r, m, n);
      if !panics {
        panics := FreeLastRun(start, InRange(|refs|, start, count), fs, fc, o, r, m);
        if !panics {
          FreeEnd(s, o, r, m, start, n, was);
        }
      }
    }

    /** The books at the end. */
    lemma FreeEnd(s: seq<Extent>, o: seq<Owner>, r: seq<nat>, m: seq<seq<nat>>, start: nat, n: nat, was: seq<Owner>)
      requires Freeing(o, r, m, start, n, 0, 0) && start + n <= |r| && Parts(s, r, mags, was)
      ensures NoneCached(was, start, n) && m == mags ==> Ok()
      ensures !NoneCached(was, start, n) ==> Broken()
    {
      assert SetRange(refs, 0, 0, 1) == refs;
      if !NoneCached(was, start, n) {
        var f :| start <= f < start + n && was[f].Cached?;
        assert FrameOk(s, r, mags, was, f) && ContigFrame(o[f], r[f], owner[f], refs[f], true, false);
        CachedCounts(table.Free(), refs, mags, was[f].cpu, was[f].slot);
      }
    }
  }

  /** The memory map of a small machine: 16 MiB, all usable. */
  function SmallMap(): seq<MmapEntry> { [MmapEntry(0, 0x100_0000, 1)] }

  lemma SmallMapIs()
    ensures UsableApart(SmallMap()) && Top(SmallMap()) / PAGE_SIZE == 4096
    ensures UsableIn(SmallMap(), 0x800) && !BootReserved(0x20_0000, 0, 0, 4096, 0x800)
  {
    assert SmallMap()[..0] == [] && Usable(SmallMap()[0], 0x800);
  }

  /** That machine after boot, with the kernel in the second megabyte. */
  method BootSmall() returns (p: Pmm)
    ensures fresh(p) && fresh(p.table) && fresh(p.table.extents) && p.Ok() && p.table.Free() != []
  {
    SmallMapIs();
    var nodes := seq(MAX_NUMA_NODES, _ => NumaNode(false, 0, 0));
    p := new Pmm(SmallMap(), 0x20_0000, 0, 0, nodes);
    assert p.owner[0x800].InExtents?;
    assert FrameOk(p.table.Free(), p.refs, p.mags, p.owner, 0x800);
  }

  /** Boot information of one page that starts half-way through a frame: its second half is in
      a frame that is free after boot. */
  method InfoSpilled() returns (p: Pmm)
    ensures ByteFree(p.owner, 0x20_17FF) && 0x20_0800 <= 0x20_17FF < 0x20_0800 + 0x1000
  {
    SmallMapIs();
    assert Usable(SmallMap()[0], 0x201);
    assert UsableIn(SmallMap(), 0x201);
    var nodes := seq(MAX_NUMA_NODES, _ => NumaNode(false, 0, 0));
    p := new Pmm(SmallMap(), 0x20_0000, 0x20_0800, 0x1000, nodes);
    InfoReserved(0x20_0000, 0x20_0800, 0x1000, |p.owner|, 0x20_17FF);
  }

  /** pmm_free_frame does break the books: a frame with two references is freed once. */
  method SharedFrameFreed() returns (p: Pmm)
    ensures p.Broken()
  {
    p := BootSmall();
    var frame := p.AllocFrame(0);
    p.IncRef(frame);
    var panics := p.FreeFrame(0, frame);
  }
}
