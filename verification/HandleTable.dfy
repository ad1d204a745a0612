/** The handle table object of archs/kom/common/handle.cpp. Each locked section and each
    reference count operation is one method and one step of HandleProtocol; alloc, dup,
    transfer and close are what these amount to when no other call is under way. */
module HandleTable {
  import opened Common
  import opened Counting
  import opened Handles
  import opened HandleProtocol

  /** No call is under way. */
  ghost predicate Quiet(s: State) { |s.calls| > 0 && forall t | 0 <= t < |s.calls| :: s.calls[t].Idle? }

  /** Then the counts are exact. */
  lemma QuietCounts(s: State, o: Obj)
    requires Inv(s) && Quiet(s) && o != NULL
    ensures RefsOf(s.refs, o) == Names(s.entries, o) + s.held[o] + s.leaked[o] && Num(s.calls, Owns(o)) == Num(s.calls, Counts(o)) == 0
  {
    NumNone(s.calls, Owns(o));
    NumNone(s.calls, Counts(o));
    assert Law(s, o);
  }

  /** So an object that an entry names, or that someone holds, has not been deleted. */
  lemma QuietSafe(s: State)
    requires Inv(s) && Quiet(s)
    ensures Safe(s)
    ensures forall i | 0 <= i < CAPACITY && s.entries[i].obj != NULL :: s.entries[i].obj in s.refs
  {
    forall o: Obj | o != NULL && InUse(s, o) ensures o in s.refs { QuietCounts(s, o); }
    forall i | 0 <= i < CAPACITY && s.entries[i].obj != NULL ensures s.entries[i].obj in s.refs {
      NumPositive(s.entries, i, Naming(s.entries[i].obj));
      QuietCounts(s, s.entries[i].obj);
    }
  }

  class HandleTable {
    var entries: seq<Entry>
    var freelist: seq<nat>
    var refs: map<Obj, nat>
    ghost var born: set<Obj>
    ghost var held: multiset<Obj>
    ghost var leaked: multiset<Obj>
    ghost var owing: seq<Obj>
    ghost var calls: seq<Call>
    ghost var retired: seq<nat>
    ghost var granted: seq<nat>

    ghost function Now(): State
      reads this
    {
      State(entries, freelist, refs, born, held, leaked, owing, calls)
    }

    ghost predicate Ok()
      reads this
    {
      SlotsOk(entries, freelist, retired, granted) && Inv(Now())
    }

    /** init: index 1 is handed out first. */
    constructor (ghost threads: nat)
      ensures Ok() && Now() == Fresh(threads)
    {
      var es, free := seq(CAPACITY, _ => Entry(NULL, 0, 0)), [];
      var i := CAPACITY - 1;
      while i > 0
        invariant 0 <= i <= CAPACITY - 1 && |es| == CAPACITY && |free| == CAPACITY - 1 - i
        invariant forall k | 0 <= k < |free| :: free[k] == CAPACITY - 1 - k
        invariant forall k | 0 <= k < CAPACITY :: es[k] == Entry(NULL, 0, if k > i then 1 else 0)
      {
        free := free + [i];
        es := es[i := es[i].(generation := 1)];
        i := i - 1;
      }
      entries, freelist, refs := es, free, map[];
      born, held, leaked, owing, calls := {}, multiset{}, multiset{}, seq(CAPACITY, _ => NULL), seq(threads, _ => Idle);
      retired, granted := seq(CAPACITY, _ => 0), seq(CAPACITY, _ => 0);
      new;
      assert entries == FirstEntries() && freelist == FirstFree();
      FreshOk(threads);
      forall k | 0 < k < CAPACITY ensures SlotOk(entries, freelist, retired, granted, k) {
        assert freelist[CAPACITY - 1 - k] == k;
      }
    }

    // -------------------------------------------------------------- sections

    /** A new object starts with one reference, its creator's. */
    method Create(o: Obj)
      requires Ok() && o != NULL && o !in born
      modifies this`refs, this`born, this`held
      ensures Ok() && Now() == Apply(old(Now()), Action.Create(o))
    {
      StepKeeps(Now(), Action.Create(o));
      refs, born, held := refs[o := 1], born + {o}, held + multiset{o};
    }

    /** kobject_ref by a holder. */
    method Ref(o: Obj)
      requires Ok() && o in held && o in refs
      modifies this`refs, this`held
      ensures Ok() && Now() == Apply(old(Now()), Action.Ref(o))
    {
      StepKeeps(Now(), Action.Ref(o));
      refs, held := refs[o := refs[o] + 1], held + multiset{o};
    }

    /** kobject_unref by a holder: the object goes exactly when this was the last reference. */
    method Unref(o: Obj) returns (deleted: bool)
      requires Ok() && (o != NULL ==> o in held && o in refs)
      modifies this`refs, this`held
      ensures Ok() && (deleted <==> o != NULL && old(refs)[o] == 1)
      ensures o == NULL ==> Now() == old(Now())
      ensures o != NULL ==> Enabled(old(Now()), Action.Unref(o)) && Now() == Apply(old(Now()), Action.Unref(o)) && (deleted <==> o !in refs)
    {
      if o == NULL {
        return false;
      }
      StepKeeps(Now(), Action.Unref(o));
      deleted := refs[o] == 1;
      refs, held := if deleted then refs - {o} else refs[o := refs[o] - 1], held - multiset{o};
    }

    /** resolve: succeeds exactly if the handle matches and both the handle and, decisively,
        the entry hold the rights asked for. The reference is taken under the lock. */
    method Resolve(h: nat, req: nat) returns (obj: Obj)
      requires Ok() && Safe(Now())
      modifies this`refs, this`held
      ensures Ok() && Safe(Now()) && (obj != NULL <==> Matches(entries, h) && Allows(CapsOf(h), req) && Allows(entries[IdxOf(h)].caps, req))
      ensures req < 0x1_0000 ==> (obj != NULL <==> Matches(entries, h) && Within(req, CapsOf(h)) && Within(req, entries[IdxOf(h)].caps))
      ensures obj != NULL ==> obj == entries[IdxOf(h)].obj && GenOf(h) == GenAfter(retired[IdxOf(h)])
      ensures obj != NULL ==> Enabled(old(Now()), Action.Resolve(h, req)) && Now() == Apply(old(Now()), Action.Resolve(h, req))
      ensures obj == NULL ==> Now() == old(Now())
    {
      var ok := Check(h, req);
      if !ok {
        return NULL;
      }
      var idx := IdxOf(h);
      assert SlotOk(entries, freelist, retired, granted, idx);
      obj := entries[idx].obj;
      NumPositive(entries, idx, Naming(obj));
      assert InUse(Now(), obj);
      StepKeeps(Now(), Action.Resolve(h, req));
      SafeExactly(Now(), Action.Resolve(h, req));
      refs, held := refs[obj := refs[obj] + 1], held + multiset{obj};
    }

    /** resolve's tests. */
    method Check(h: nat, req: nat) returns (ok: bool)
      requires |entries| == CAPACITY
      ensures ok <==> Matches(entries, h) && Allows(CapsOf(h), req) && Allows(entries[IdxOf(h)].caps, req)
      ensures req < 0x1_0000 ==> (ok <==> Matches(entries, h) && Within(req, CapsOf(h)) && Within(req, entries[IdxOf(h)].caps))
    {
      var idx, gen := IdxOf(h), GenOf(h);
      if req < 0x1_0000 {
        AllowsExactly(CapsOf(h), req);
        if idx < CAPACITY { AllowsExactly(entries[idx].caps, req); }
      }
      if !Allows(CapsOf(h), req) || idx == 0 || idx >= CAPACITY {
        return false;
      }
      ok := entries[idx].generation == gen && entries[idx].obj != NULL && Allows(entries[idx].caps, req);
    }

    /** dup up to its call of alloc. */
    method DupLookup(h: nat, newCaps: nat, ghost t: nat) returns (obj: Obj)
      requires Ok() && IsIdle(Now(), t)
      modifies this`calls
      ensures Ok() && (obj != NULL <==> Matches(entries, h) && Allows(entries[IdxOf(h)].caps, newCaps))
      ensures newCaps < 0x1_0000 ==> (obj != NULL <==> Matches(entries, h) && Within(newCaps, entries[IdxOf(h)].caps))
      ensures if obj == NULL then Now() == old(Now()) else obj == entries[IdxOf(h)].obj && Now() == Apply(old(Now()), DupLook(t, h, newCaps))
    {
      var idx, gen := IdxOf(h), GenOf(h);
      if idx == 0 || idx >= CAPACITY {
        return NULL;
      }
      if newCaps < 0x1_0000 { AllowsExactly(entries[idx].caps, newCaps); }
      if entries[idx].generation != gen || entries[idx].obj == NULL || !Allows(entries[idx].caps, newCaps) {
        return NULL;
      }
      obj := entries[idx].obj;
      StepKeeps(Now(), DupLook(t, h, newCaps));
      calls := calls[t := Storing(obj, newCaps, ByDup(idx))];
    }

    /** The stores of alloc's locked section; grant is the right the handle descends from. */
    method TakeSlot(obj: Obj, caps: nat, ghost grant: nat) returns (h: nat)
      requires SlotsOk(entries, freelist, retired, granted) && freelist != [] && obj != NULL
      requires caps < 0x1_0000 && grant < 0x1_0000 && Allows(grant, caps)
      modifies this`entries, this`freelist, this`granted
      ensures SlotsOk(entries, freelist, retired, granted)
      ensures h != 0 && IdxOf(h) == old(freelist)[|old(freelist)| - 1] && CapsOf(h) == caps && GenOf(h) == GenAfter(retired[IdxOf(h)])
      ensures freelist == old(freelist)[..|old(freelist)| - 1] && entries == Used(old(entries), IdxOf(h), obj, caps)
      ensures Matches(entries, h) && !Matches(old(entries), h) && granted == old(granted)[IdxOf(h) := grant]
    {
      UseSlot(entries, freelist, retired, granted, obj, caps, grant);
      var idx := freelist[|freelist| - 1];
      assert SlotOk(entries, freelist, retired, granted, idx);
      NewHandle(entries, idx, obj, caps, retired[idx]);
      freelist := freelist[..|freelist| - 1];
      entries := entries[idx := entries[idx].(obj := obj, caps := caps)];
      granted := granted[idx := grant];
      var gen := entries[idx].generation;
      h := Make(caps, gen, idx);
    }

    /** alloc's locked section. */
    method StoreEntry(obj: Obj, caps: nat, ghost grant: nat, ghost t: nat) returns (h: nat)
      requires Ok() && t < |calls| && calls[t].Storing? && calls[t].obj == obj && calls[t].caps == caps
      requires caps < 0x1_0000 && grant < 0x1_0000 && Allows(grant, caps)
      modifies this`entries, this`freelist, this`held, this`owing, this`calls, this`granted
      ensures Ok() && Enabled(old(Now()), StoreSlot(t)) && Now() == Apply(old(Now()), StoreSlot(t)) && (h == 0 <==> old(freelist) == [])
      ensures h != 0 ==>
          && IdxOf(h) == old(freelist)[|old(freelist)| - 1] && CapsOf(h) == caps && GenOf(h) == GenAfter(retired[IdxOf(h)])
          && Matches(entries, h) && !Matches(old(entries), h) && granted == old(granted)[IdxOf(h) := grant]
      ensures h == 0 ==> granted == old(granted)
    {
      assert CallOk(calls[t]);
      if freelist == [] {
        NoSlot(t);
        return 0;
      }
      StepKeeps(Now(), StoreSlot(t));
      h := TakeSlot(obj, caps, grant);
      owing, calls := owing[IdxOf(h) := obj], calls[t := Counting(obj, IdxOf(h), calls[t].why)];
    }

    /** alloc finds no free slot. */
    ghost method NoSlot(t: nat)
      requires Ok() && t < |calls| && calls[t].Storing? && freelist == []
      modifies this`held, this`calls
      ensures Ok() && Enabled(old(Now()), StoreSlot(t)) && Now() == Apply(old(Now()), StoreSlot(t))
    {
      StepKeeps(Now(), StoreSlot(t));
      held, calls := GivenBack(held, calls[t].why, calls[t].obj), calls[t := Then(calls[t].why, calls[t].obj)];
    }

    /** The kobject_ref that ends alloc. */
    method CountEntry(obj: Obj, ghost t: nat)
      requires Ok() && obj in refs && t < |calls| && calls[t].Counting? && calls[t].obj == obj
      modifies this`refs, this`held, this`owing, this`calls
      ensures Ok() && Enabled(old(Now()), CountRef(t)) && Now() == Apply(old(Now()), CountRef(t))
    {
      assert CallOk(calls[t]);
      StepKeeps(Now(), CountRef(t));
      refs := refs[obj := refs[obj] + 1];
      held, owing, calls := GivenBack(held, calls[t].why, obj), owing[calls[t].slot := NULL], calls[t := Then(calls[t].why, obj)];
    }

    /** The stores that close and transfer share: the slot is retired. */
    method Retire(idx: nat)
      requires SlotsOk(entries, freelist, retired, granted) && 0 < idx < CAPACITY && entries[idx].obj != NULL
      modifies this`entries, this`freelist, this`retired
      ensures SlotsOk(entries, freelist, retired, granted)
      ensures entries == Retired(old(entries), idx) && freelist == old(freelist) + [idx] && retired == old(retired)[idx := old(retired)[idx] + 1]
    {
      RetireSlot(entries, freelist, retired, granted, idx);
      ghost var es := entries;
      entries := entries[idx := entries[idx].(obj := NULL, caps := 0)];
      entries := entries[idx := entries[idx].(generation := (entries[idx].generation + 1) % 0x1_0000)];
      if entries[idx].generation == 0 {
        entries := entries[idx := entries[idx].(generation := 1)];
      }
      assert entries == Retired(es, idx);
      freelist := freelist + [idx];
      retired := retired[idx := retired[idx] + 1];
    }

    /** close's locked section. */
    method CloseLookup(h: nat, ghost t: nat) returns (obj: Obj)
      requires Ok() && IsIdle(Now(), t)
      modifies this`entries, this`freelist, this`retired, this`owing, this`calls
      ensures Ok() && !Matches(entries, h) && (obj != NULL <==> Matches(old(entries), h))
      ensures obj == NULL ==> Now() == old(Now()) && retired == old(retired)
      ensures obj != NULL ==>
          && obj == old(entries)[IdxOf(h)].obj && Now() == Apply(old(Now()), CloseLook(t, h))
          && retired == old(retired)[IdxOf(h) := old(retired)[IdxOf(h)] + 1]
    {
      var idx, gen := IdxOf(h), GenOf(h);
      if idx == 0 || idx >= CAPACITY {
        return NULL;
      }
      if entries[idx].generation != gen || entries[idx].obj == NULL {
        return NULL;
      }
      StepKeeps(Now(), CloseLook(t, h));
      NextGenDiffers(gen);
      obj := entries[idx].obj;
      Retire(idx);
      owing, calls := owing[idx := NULL], calls[t := Dropping(obj)];
    }

    /** transfer's locked section: a temporary reference, and the slot is retired without
        giving up the entry's own reference. */
    method TransferLookup(h: nat, ghost t: nat) returns (obj: Obj, caps: nat)
      requires Ok() && IsIdle(Now(), t) && Safe(Now())
      modifies this`entries, this`freelist, this`retired, this`refs, this`leaked, this`owing, this`calls
      ensures Ok() && !Matches(entries, h) && (obj != NULL <==> Matches(old(entries), h))
      ensures obj == NULL ==> Now() == old(Now()) && retired == old(retired)
      ensures obj != NULL ==>
          && obj == old(entries)[IdxOf(h)].obj && caps == old(entries)[IdxOf(h)].caps
          && Enabled(old(Now()), TransferLook(t, h)) && Now() == Apply(old(Now()), TransferLook(t, h))
          && retired == old(retired)[IdxOf(h) := old(retired)[IdxOf(h)] + 1]
    {
      var idx, gen := IdxOf(h), GenOf(h);
      if idx == 0 || idx >= CAPACITY {
        return NULL, 0;
      }
      if entries[idx].generation != gen || entries[idx].obj == NULL {
        return NULL, 0;
      }
      obj, caps := entries[idx].obj, entries[idx].caps;
      NumPositive(entries, idx, Naming(obj));
      assert InUse(Now(), obj);
      NextGenDiffers(gen);
      Detach(h, t);
    }

    method Detach(h: nat, ghost t: nat)
      requires Ok() && Enabled(Now(), TransferLook(t, h))
      modifies this`entries, this`freelist, this`retired, this`refs, this`leaked, this`owing, this`calls
      ensures Ok() && Now() == Apply(old(Now()), TransferLook(t, h)) && retired == old(retired)[IdxOf(h) := old(retired)[IdxOf(h)] + 1]
    {
      StepKeeps(Now(), TransferLook(t, h));
      var idx := IdxOf(h);
      var obj, caps := entries[idx].obj, entries[idx].caps;
      refs := refs[obj := refs[obj] + 1];
      Retire(idx);
      leaked, owing, calls := leaked + multiset{obj}, owing[idx := NULL], calls[t := Storing(obj, caps, ByTransfer)];
    }

    /** The kobject_unref that ends close and transfer. */
    method DropReference(obj: Obj, ghost t: nat) returns (deleted: bool)
      requires Ok() && obj in refs && t < |calls| && calls[t] == Dropping(obj)
      modifies this`refs, this`calls
      ensures Ok() && Enabled(old(Now()), DropRef(t)) && Now() == Apply(old(Now()), DropRef(t)) && (deleted <==> obj !in refs)
    {
      StepKeeps(Now(), DropRef(t));
      deleted := refs[obj] == 1;
      refs, calls := if deleted then refs - {obj} else refs[obj := refs[obj] - 1], calls[t := Idle];
    }

    // -------------------------------------------------------------- calls that run alone

    /** alloc after its null test, in one go. */
    method StoreAndCount(obj: Obj, caps: nat, ghost grant: nat, ghost t: nat) returns (h: nat)
      requires Ok() && obj in refs && t < |calls| && calls[t].Storing? && calls[t].obj == obj && calls[t].caps == caps
      requires caps < 0x1_0000 && grant < 0x1_0000 && Allows(grant, caps)
      modifies this`entries, this`freelist, this`refs, this`held, this`owing, this`calls, this`granted
      ensures Ok() && (h == 0 <==> old(freelist) == [])
      ensures held == GivenBack(old(held), old(calls)[t].why, obj) && calls == old(calls)[t := Then(old(calls)[t].why, obj)]
      ensures h == 0 ==> entries == old(entries) && refs == old(refs) && freelist == old(freelist) && granted == old(granted)
      ensures h != 0 ==>
          && freelist == old(freelist)[..|old(freelist)| - 1] && IdxOf(h) == old(freelist)[|old(freelist)| - 1]
          && CapsOf(h) == caps && GenOf(h) == GenAfter(retired[IdxOf(h)]) && Matches(entries, h) && !Matches(old(entries), h)
          && entries == Used(old(entries), IdxOf(h), obj, caps) && refs == Counted(old(refs), obj) && granted == old(granted)[IdxOf(h) := grant]
    {
      h := StoreEntry(obj, caps, grant, t);
      if h == 0 {
        return;
      }
      CountEntry(obj, t);
    }

    /** alloc's caller lends it a reference. */
    ghost method Begin(obj: Obj, caps: nat, t: nat)
      requires Ok() && obj in held && IsIdle(Now(), t)
      modifies this`held, this`calls
      ensures Ok() && held == old(held) - multiset{obj} && calls == old(calls)[t := Storing(obj, caps, ByHolder)]
    {
      StepKeeps(Now(), BeginAlloc(t, obj, caps));
      held, calls := held - multiset{obj}, calls[t := Storing(obj, caps, ByHolder)];
    }

    /** alloc. */
    method Alloc(obj: Obj, caps: nat) returns (h: nat)
      requires Ok() && Quiet(Now()) && (obj != NULL ==> obj in held) && caps < 0x1_0000
      modifies this`entries, this`freelist, this`refs, this`held, this`owing, this`calls, this`granted
      ensures Ok() && Quiet(Now()) && held == old(held) && (h == 0 <==> obj == NULL || old(freelist) == [])
      ensures h == 0 ==> entries == old(entries) && refs == old(refs)
      ensures h != 0 ==>
          && Matches(entries, h) && !Matches(old(entries), h) && CapsOf(h) == caps
          && entries == Used(old(entries), IdxOf(h), obj, caps) && obj in old(refs) && refs == Counted(old(refs), obj)
    {
      if obj == NULL {
        return 0;
      }
      AllowsSelf(caps);
      QuietCounts(Now(), obj);
      Begin(obj, caps, 0);
      h := StoreAndCount(obj, caps, caps, 0);
      assert held == old(held);
    }

    /** dup: a new handle with rights that the old entry has. */
    method Dup(h: nat, newCaps: nat) returns (h2: nat)
      requires Ok() && Quiet(Now()) && newCaps < 0x1_0000
      modifies this`entries, this`freelist, this`refs, this`held, this`owing, this`calls, this`granted
      ensures Ok() && Quiet(Now()) && held == old(held)
      ensures h2 != 0 <==> Matches(old(entries), h) && Within(newCaps, old(entries)[IdxOf(h)].caps) && old(freelist) != []
      ensures h2 == 0 ==> entries == old(entries) && refs == old(refs)
      ensures h2 != 0 ==>
          && Matches(entries, h) && Matches(entries, h2) && h2 != h && IdxOf(h2) != IdxOf(h) && entries[IdxOf(h2)].obj == entries[IdxOf(h)].obj
          && entries[IdxOf(h2)].caps == CapsOf(h2) == newCaps && granted[IdxOf(h2)] == old(granted)[IdxOf(h)]
          && entries == Used(old(entries), IdxOf(h2), entries[IdxOf(h)].obj, newCaps)
          && entries[IdxOf(h)].obj in old(refs) && refs == Counted(old(refs), entries[IdxOf(h)].obj)
    {
      QuietSafe(Now());
      var obj := DupLookup(h, newCaps, 0);
      if obj == NULL {
        return 0;
      }
      ghost var i := IdxOf(h);
      assert SlotOk(entries, freelist, retired, granted, i);
      AllowsTransitive(granted[i], entries[i].caps, newCaps);
      h2 := StoreAndCount(obj, newCaps, granted[i], 0);
    }

    /** close: the slot is retired and its reference dropped; anything else is ignored. */
    method Close(h: nat) returns (deleted: bool)
      requires Ok() && Quiet(Now())
      modifies this`entries, this`freelist, this`retired, this`refs, this`owing, this`calls
      ensures Ok() && Quiet(Now()) && !Matches(entries, h)
      ensures !Matches(old(entries), h) ==> entries == old(entries) && refs == old(refs) && retired == old(retired) && !deleted
      ensures Matches(old(entries), h) ==>
          var i := IdxOf(h); var o := old(entries)[i].obj;
          && entries == Retired(old(entries), i) && retired == old(retired)[i := old(retired)[i] + 1]
          && o in old(refs) && old(refs)[o] > 0 && refs == Dropped(old(refs), o) && (deleted <==> old(refs)[o] == 1)
    {
      QuietSafe(Now());
      var obj := CloseLookup(h, 0);
      if obj == NULL {
        return false;
      }
      deleted := DropReference(obj, 0);
    }

    /** The rest of transfer, in one go. */
    method Reissue(obj: Obj, caps: nat, ghost grant: nat, ghost t: nat) returns (h: nat)
      requires Ok() && obj in refs && t < |calls| && calls[t] == Storing(obj, caps, ByTransfer) && freelist != []
      requires caps < 0x1_0000 && grant < 0x1_0000 && Allows(grant, caps)
      modifies this`entries, this`freelist, this`refs, this`held, this`owing, this`calls, this`granted
      ensures Ok() && h != 0 && held == old(held) && calls == old(calls)[t := Idle] && refs == old(refs)
      ensures IdxOf(h) == old(freelist)[|old(freelist)| - 1] && CapsOf(h) == caps && GenOf(h) == GenAfter(retired[IdxOf(h)])
      ensures Matches(entries, h) && entries == Used(old(entries), IdxOf(h), obj, caps) && granted == old(granted)[IdxOf(h) := grant]
    {
      h := StoreAndCount(obj, caps, grant, t);
      var deleted := DropReference(obj, t);
      assert refs == old(refs) && calls == old(calls)[t := Idle];
    }

    /** transfer: the old handle dies, a new one with the same object and rights replaces it
        in the same slot, and the object keeps one reference too many. */
    method Transfer(h: nat) returns (h2: nat)
      requires Ok() && Quiet(Now())
      modifies this
      ensures Ok() && Quiet(Now()) && !Matches(entries, h) && (h2 != 0 <==> Matches(old(entries), h)) && held == old(held)
      ensures h2 == 0 ==> entries == old(entries) && refs == old(refs) && leaked == old(leaked) && retired == old(retired)
      ensures h2 != 0 ==>
          var i := IdxOf(h); var o := old(entries)[i].obj;
          && IdxOf(h2) == i && Matches(entries, h2) && GenOf(h2) == NextGen(GenOf(h)) && CapsOf(h2) == old(entries)[i].caps
          && entries == old(entries)[i := old(entries)[i].(generation := GenOf(h2))] && granted == old(granted)
          && retired == old(retired)[i := old(retired)[i] + 1]
          && o in old(refs) && refs == Counted(old(refs), o) && leaked == old(leaked) + multiset{o}
    {
      QuietSafe(Now());
      var obj, caps := TransferLookup(h, 0);
      if obj == NULL {
        return 0;
      }
      ghost var i := IdxOf(h);
      assert SlotOk(old(entries), old(freelist), old(retired), old(granted), i);
      h2 := Reissue(obj, caps, granted[i], 0);
      assert entries == old(entries)[i := old(entries)[i].(generation := GenOf(h2))];
      assert granted == old(granted);
    }
  }
}
