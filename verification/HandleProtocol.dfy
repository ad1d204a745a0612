/** Handle tables under interleaving. alloc, dup, transfer and close drop the table lock
    between their parts, so each locked section and each atomic reference count operation is a
    step of its own, and every thread may be in the middle of one call. */
module HandleProtocol {
  import opened Common
  import opened Counting
  import opened Handles

  /** Why a thread is inside alloc: for a caller with a reference of its own, as the second
      half of dup from a slot, or as the second half of transfer. */
  datatype Why = ByHolder | ByDup(src: nat) | ByTransfer

  /** Where a thread is: before alloc's locked section, between it and kobject_ref, before the
      kobject_unref that ends close and transfer. */
  datatype Call = Idle | Storing(obj: Obj, caps: nat, why: Why) | Counting(obj: Obj, slot: nat, why: Why) | Dropping(obj: Obj)

  /** refs has the objects that have not been deleted; held are references of callers, leaked
      those that transfers left behind; owing[i] is the object of slot i until its reference
      has been counted. */
  datatype State = State(entries: seq<Entry>, free: seq<nat>, refs: map<Obj, nat>, born: set<Obj>,
                         held: multiset<Obj>, leaked: multiset<Obj>, owing: seq<Obj>, calls: seq<Call>)

  /** The call is about to count a reference to o. */
  function Counts(o: Obj): Call -> bool { (c: Call) => c.Counting? && c.obj == o }

  /** The call owns a counted reference to o. */
  function Owns(o: Obj): Call -> bool {
    (c: Call) => match c
      case Idle => false
      case Storing(x, _, why) => x == o && !why.ByDup?
      case Counting(x, _, why) => x == o && !why.ByDup?
      case Dropping(x) => x == o
  }

  function Owes(o: Obj): Obj -> bool { (x: Obj) => x == o }

  function RefsOf(refs: map<Obj, nat>, o: Obj): nat { if o in refs then refs[o] else 0 }

  // ---------------------------------------------------------------- steps

  datatype Action =
    | Create(o: Obj) | Ref(o: Obj) | Unref(o: Obj) | Resolve(h: nat, req: nat)
    | BeginAlloc(t: nat, o: Obj, caps: nat) | DupLook(t: nat, h: nat, caps: nat) | TransferLook(t: nat, h: nat) | CloseLook(t: nat, h: nat)
    | StoreSlot(t: nat) | CountRef(t: nat) | DropRef(t: nat)

  /** kobject_unref: the last reference deletes the object. */
  function Dropped(refs: map<Obj, nat>, o: Obj): map<Obj, nat>
    requires o in refs && refs[o] > 0
  {
    if refs[o] == 1 then refs - {o} else refs[o := refs[o] - 1]
  }

  function Counted(refs: map<Obj, nat>, o: Obj): map<Obj, nat>
    requires o in refs
  {
    refs[o := refs[o] + 1]
  }

  ghost predicate IsIdle(s: State, t: nat) { t < |s.calls| && s.calls[t].Idle? }

  /** A caller passes objects it holds. A step that would touch the memory of a deleted object
      has no meaning and is not enabled. */
  ghost predicate Enabled(s: State, a: Action) {
    match a
    case Create(o) => o != NULL && o !in s.born
    case Ref(o) => o in s.held && o in s.refs
    case Unref(o) => o in s.held && o in s.refs && s.refs[o] > 0
    case Resolve(h, req) =>
      Matches(s.entries, h) && Allows(CapsOf(h), req) && Allows(s.entries[IdxOf(h)].caps, req) && s.entries[IdxOf(h)].obj in s.refs
    case BeginAlloc(t, o, caps) => IsIdle(s, t) && o != NULL && o in s.held
    case DupLook(t, h, caps) => IsIdle(s, t) && Matches(s.entries, h) && Allows(s.entries[IdxOf(h)].caps, caps)
    case TransferLook(t, h) => IsIdle(s, t) && Matches(s.entries, h) && |s.owing| == CAPACITY && s.entries[IdxOf(h)].obj in s.refs
    case CloseLook(t, h) => IsIdle(s, t) && Matches(s.entries, h) && |s.owing| == CAPACITY
    case StoreSlot(t) =>
      t < |s.calls| && s.calls[t].Storing? && (s.free != [] ==> s.free[|s.free| - 1] < |s.entries| == |s.owing|)
    case CountRef(t) => t < |s.calls| && s.calls[t].Counting? && s.calls[t].slot < |s.owing| && s.calls[t].obj in s.refs
    case DropRef(t) => t < |s.calls| && s.calls[t].Dropping? && s.calls[t].obj in s.refs && s.refs[s.calls[t].obj] > 0
  }

  /** What follows alloc in each call. */
  function Then(why: Why, o: Obj): Call { if why.ByTransfer? then Dropping(o) else Idle }

  function GivenBack(held: multiset<Obj>, why: Why, o: Obj): multiset<Obj> { if why.ByHolder? then held + multiset{o} else held }

  ghost function Apply(s: State, a: Action): State
    requires Enabled(s, a)
  {
    match a
    case Create(o) => s.(refs := s.refs[o := 1], born := s.born + {o}, held := s.held + multiset{o})
    case Ref(o) => s.(refs := Counted(s.refs, o), held := s.held + multiset{o})
    case Unref(o) => s.(refs := Dropped(s.refs, o), held := s.held - multiset{o})
    case Resolve(h, req) =>
      var o := s.entries[IdxOf(h)].obj;
      s.(refs := Counted(s.refs, o), held := s.held + multiset{o})
    case BeginAlloc(t, o, caps) => s.(held := s.held - multiset{o}, calls := s.calls[t := Storing(o, caps, ByHolder)])
    case DupLook(t, h, caps) => s.(calls := s.calls[t := Storing(s.entries[IdxOf(h)].obj, caps, ByDup(IdxOf(h)))])
    case TransferLook(t, h) =>
      var i := IdxOf(h);
      var o, caps := s.entries[i].obj, s.entries[i].caps;
      s.(refs := Counted(s.refs, o), leaked := s.leaked + multiset{o}, entries := Retired(s.entries, i), free := s.free + [i],
         owing := s.owing[i := NULL], calls := s.calls[t := Storing(o, caps, ByTransfer)])
    case CloseLook(t, h) =>
      var i := IdxOf(h);
      s.(entries := Retired(s.entries, i), free := s.free + [i], owing := s.owing[i := NULL],
         calls := s.calls[t := Dropping(s.entries[i].obj)])
    case StoreSlot(t) => Stored(s, t)
    case CountRef(t) =>
      var c := s.calls[t];
      s.(refs := Counted(s.refs, c.obj), owing := s.owing[c.slot := NULL], held := GivenBack(s.held, c.why, c.obj),
         calls := s.calls[t := Then(c.why, c.obj)])
    case DropRef(t) => s.(refs := Dropped(s.refs, s.calls[t].obj), calls := s.calls[t := Idle])
  }

  /** alloc's locked section. */
  ghost function Stored(s: State, t: nat): State
    requires Enabled(s, StoreSlot(t))
  {
    var c, n := s.calls[t], |s.free|;
    if n == 0 then s.(held := GivenBack(s.held, c.why, c.obj), calls := s.calls[t := Then(c.why, c.obj)])
    else
      var i := s.free[n - 1];
      s.(entries := Used(s.entries, i, c.obj, c.caps), free := s.free[..n - 1], owing := s.owing[i := c.obj],
         calls := s.calls[t := Counting(c.obj, i, c.why)])
  }

  // ---------------------------------------------------------------- runs

  datatype Run = Boot(threads: nat) | After(run: Run, action: Action)

  /** init: index 1 is handed out first. */
  function FirstFree(): (f: seq<nat>)
    ensures |f| == CAPACITY - 1
  {
    seq(CAPACITY - 1, k requires 0 <= k < CAPACITY - 1 => CAPACITY - 1 - k)
  }

  function FirstEntries(): (es: seq<Entry>)
    ensures |es| == CAPACITY
  {
    seq(CAPACITY, k => Entry(NULL, 0, if k > 0 then 1 else 0))
  }

  function NothingOwed(): (ow: seq<Obj>)
    ensures |ow| == CAPACITY && forall i | 0 <= i < CAPACITY :: ow[i] == NULL
  {
    seq(CAPACITY, _ => NULL)
  }

  function Fresh(threads: nat): State {
    State(FirstEntries(), FirstFree(), map[], {}, multiset{}, multiset{}, NothingOwed(), seq(threads, _ => Idle))
  }

  ghost predicate Valid(r: Run)
    decreases r, 0
  {
    match r
    case Boot(_) => true
    case After(q, a) => Valid(q) && Enabled(Now(q), a)
  }

  ghost function Now(r: Run): State
    requires Valid(r)
    decreases r, 1
  {
    match r
    case Boot(n) => Fresh(n)
    case After(q, a) => Apply(Now(q), a)
  }

  // ---------------------------------------------------------------- conservation

  ghost predicate TableOk(es: seq<Entry>, free: seq<nat>) {
    && |es| == CAPACITY && es[0].obj == NULL
    && (forall k | 0 <= k < |free| :: 0 < free[k] < CAPACITY && es[free[k]].obj == NULL)
    && (forall j, k | 0 <= j < k < |free| :: free[j] != free[k])
  }

  ghost predicate CallOk(c: Call) { (!c.Idle? ==> c.obj != NULL) && (c.Counting? ==> c.slot < CAPACITY) }

  ghost predicate RefsOk(refs: map<Obj, nat>, born: set<Obj>) {
    NULL !in refs && forall o | o in refs :: refs[o] > 0 && o in born
  }

  /** What there is to count of an object: entries, callers, leaks and calls under way. */
  ghost function Due(s: State, o: Obj): nat { Names(s.entries, o) + s.held[o] + s.leaked[o] + Num(s.calls, Owns(o)) }

  ghost predicate Law(s: State, o: Obj) { RefsOf(s.refs, o) + Num(s.calls, Counts(o)) == Due(s, o) }

  ghost predicate Inv(s: State) {
    && TableOk(s.entries, s.free) && |s.owing| == CAPACITY && RefsOk(s.refs, s.born)
    && (forall t | 0 <= t < |s.calls| :: CallOk(s.calls[t]))
    && (forall o: Obj | o != NULL :: Law(s, o)) && s.held[NULL] == 0
  }

  /** A call's counts after its thread moves on. */
  lemma CallMoves(s: State, t: nat, c: Call, o: Obj)
    requires t < |s.calls|
    ensures Num(s.calls[t := c], Counts(o)) == Num(s.calls, Counts(o)) - (if Counts(o)(s.calls[t]) then 1 else 0) + (if Counts(o)(c) then 1 else 0)
    ensures Num(s.calls[t := c], Owns(o)) == Num(s.calls, Owns(o)) - (if Owns(o)(s.calls[t]) then 1 else 0) + (if Owns(o)(c) then 1 else 0)
  {
    NumUpdate(s.calls, t, c, Counts(o));
    NumUpdate(s.calls, t, c, Owns(o));
  }

  lemma FreshOk(n: nat)
    ensures Inv(Fresh(n))
  {
    var s := Fresh(n);
    forall o: Obj | o != NULL ensures Law(s, o) {
      NumNone(s.entries, Naming(o));
      NumNone(s.calls, Counts(o));
      NumNone(s.calls, Owns(o));
    }
  }

  lemma OutsideLaw(s: State, a: Action, o: Obj)
    requires Law(s, o) && RefsOk(s.refs, s.born) && Enabled(s, a) && (a.Create? || a.Ref? || a.Unref? || a.Resolve?)
    ensures Law(Apply(s, a), o)
  {
  }

  lemma OutsideKeeps(s: State, a: Action)
    requires Inv(s) && Enabled(s, a) && (a.Create? || a.Ref? || a.Unref? || a.Resolve?)
    ensures Inv(Apply(s, a))
  {
    var s' := Apply(s, a);
    forall o: Obj | o != NULL ensures Law(s', o) { OutsideLaw(s, a, o); }
  }

  lemma BeginLaw(s: State, a: Action, o: Obj)
    requires Law(s, o) && o != NULL && Enabled(s, a) && (a.BeginAlloc? || a.DupLook?)
    ensures Law(Apply(s, a), o)
  {
    CallMoves(s, a.t, Apply(s, a).calls[a.t], o);
  }

  lemma FinishLaw(s: State, a: Action, o: Obj)
    requires Law(s, o) && o != NULL && Enabled(s, a) && (a.CountRef? || a.DropRef?)
    ensures Law(Apply(s, a), o)
  {
    CallMoves(s, a.t, Apply(s, a).calls[a.t], o);
  }

  lemma BeginKeeps(s: State, a: Action)
    requires Inv(s) && Enabled(s, a) && (a.BeginAlloc? || a.DupLook?)
    ensures Inv(Apply(s, a))
  {
    var s' := Apply(s, a);
    forall o: Obj | o != NULL ensures Law(s', o) { BeginLaw(s, a, o); }
  }

  lemma RetireKeeps(s: State, a: Action)
    requires Inv(s) && Enabled(s, a) && (a.TransferLook? || a.CloseLook?)
    ensures Inv(Apply(s, a))
  {
    var s', i := Apply(s, a), IdxOf(a.h);
    forall o: Obj | o != NULL ensures Law(s', o) {
      assert Law(s, o);
      CallMoves(s, a.t, s'.calls[a.t], o);
      NumUpdate(s.entries, i, s'.entries[i], Naming(o));
    }
  }

  lemma StoreKeeps(s: State, a: Action)
    requires Inv(s) && Enabled(s, a) && a.StoreSlot?
    ensures Inv(Apply(s, a))
  {
    var s' := Apply(s, a);
    forall o: Obj | o != NULL ensures Law(s', o) {
      assert Law(s, o);
      CallMoves(s, a.t, s'.calls[a.t], o);
      if s.free != [] {
        var i := s.free[|s.free| - 1];
        NumUpdate(s.entries, i, s'.entries[i], Naming(o));
      }
    }
  }

  lemma FinishKeeps(s: State, a: Action)
    requires Inv(s) && Enabled(s, a) && (a.CountRef? || a.DropRef?)
    ensures Inv(Apply(s, a))
  {
    var s' := Apply(s, a);
    forall o: Obj | o != NULL ensures Law(s', o) { FinishLaw(s, a, o); }
  }

  lemma StepKeeps(s: State, a: Action)
    requires Inv(s) && Enabled(s, a)
    ensures Inv(Apply(s, a))
  {
    match a
    case Create(_) => OutsideKeeps(s, a);
    case Ref(_) => OutsideKeeps(s, a);
    case Unref(_) => OutsideKeeps(s, a);
    case Resolve(_, _) => OutsideKeeps(s, a);
    case BeginAlloc(_, _, _) => BeginKeeps(s, a);
    case DupLook(_, _, _) => BeginKeeps(s, a);
    case TransferLook(_, _) => RetireKeeps(s, a);
    case CloseLook(_, _) => RetireKeeps(s, a);
    case StoreSlot(_) => StoreKeeps(s, a);
    case CountRef(_) => FinishKeeps(s, a);
    case DropRef(_) => FinishKeeps(s, a);
  }

  /** Over every interleaving, of every object: its count and the increments still to come
      are the entries that name it, the references held and leaked, and those of calls. */
  lemma {:induction false} Conservation(r: Run)
    requires Valid(r)
    ensures Inv(Now(r))
  {
    match r
    case Boot(n) => FreshOk(n);
    case After(q, a) => Conservation(q); StepKeeps(Now(q), a);
  }

  // ---------------------------------------------------------------- lifetime

  /** Something can still reach the object: an entry, a caller, or a call that will count or
      drop a reference. */
  ghost predicate InUse(s: State, o: Obj) {
    Names(s.entries, o) > 0 || s.held[o] > 0 || Num(s.calls, Counts(o)) > 0 || Num(s.calls, Owns(o)) > 0
  }

  /** No deleted object can be reached. */
  ghost predicate Safe(s: State) {
    forall o: Obj | o != NULL && InUse(s, o) :: o in s.refs
  }

  /** The two ways to lose this, as guards on the state before the step: dup stores an object
      that is gone, or the last counted reference goes while an increment is still to come. */
  ghost predicate Breaks(s: State, a: Action) {
    match a
    case StoreSlot(t) => t < |s.calls| && s.calls[t].Storing? && s.free != [] && s.calls[t].obj !in s.refs
    case Unref(o) => o in s.refs && s.refs[o] == 1 && Num(s.calls, Counts(o)) > 0
    case DropRef(t) =>
      && t < |s.calls| && s.calls[t].Dropping?
      && var o := s.calls[t].obj; o in s.refs && s.refs[o] == 1 && Num(s.calls, Counts(o)) > 0
    case _ => false
  }

  lemma OwnerInUse(s: State, t: nat, o: Obj)
    requires t < |s.calls| && Owns(o)(s.calls[t])
    ensures InUse(s, o)
  {
    NumPositive(s.calls, t, Owns(o));
  }

  /** A step that neither deletes nor stores keeps every object that is in use. */
  lemma OthersSafe(s: State, a: Action)
    requires Inv(s) && Safe(s) && Enabled(s, a) && !a.StoreSlot? && !a.Unref? && !a.DropRef?
    ensures Safe(Apply(s, a))
  {
    var s' := Apply(s, a);
    forall o: Obj | o != NULL && InUse(s', o) ensures o in s'.refs {
      if a.BeginAlloc? || a.DupLook? || a.TransferLook? || a.CloseLook? || a.CountRef? {
        CallMoves(s, a.t, s'.calls[a.t], o);
        if a.TransferLook? || a.CloseLook? {
          var i := IdxOf(a.h);
          NumUpdate(s.entries, i, s'.entries[i], Naming(o));
          if o == s.entries[i].obj { NumPositive(s.entries, i, Naming(o)); }
        }
      }
      assert InUse(s, o) || (a.Create? && o == a.o) || (a.Resolve? && o == s.entries[IdxOf(a.h)].obj);
    }
  }

  lemma StoreExactly(s: State, a: Action)
    requires Inv(s) && Safe(s) && Enabled(s, a) && a.StoreSlot?
    ensures Safe(Apply(s, a)) <==> !Breaks(s, a)
  {
    var s', x := Apply(s, a), s.calls[a.t].obj;
    forall o: Obj | o != NULL ensures InUse(s', o) ==> InUse(s, o) || (o == x && s.free != []) {
      CallMoves(s, a.t, s'.calls[a.t], o);
      if s.free != [] {
        var i := s.free[|s.free| - 1];
        NumUpdate(s.entries, i, s'.entries[i], Naming(o));
      } else if o == x && Owns(o)(s.calls[a.t]) {
        OwnerInUse(s, a.t, o);
      }
    }
    if s.free != [] {
      NumPositive(s'.calls, a.t, Counts(x));
      assert InUse(s', x);
    }
  }

  lemma DropExactly(s: State, a: Action)
    requires Inv(s) && Safe(s) && Enabled(s, a) && (a.Unref? || a.DropRef?)
    ensures Safe(Apply(s, a)) <==> !Breaks(s, a)
  {
    var s', x := Apply(s, a), if a.Unref? then a.o else s.calls[a.t].obj;
    StepKeeps(s, a);
    forall o: Obj | o != NULL ensures InUse(s', o) ==> InUse(s, o) {
      if a.DropRef? { CallMoves(s, a.t, Idle, o); }
    }
    assert Num(s'.calls, Counts(x)) == Num(s.calls, Counts(x)) by {
      if a.DropRef? { CallMoves(s, a.t, Idle, x); }
    }
    assert Law(s', x);
  }

  /** Exactly these steps put an object out of reach of its references. */
  lemma SafeExactly(s: State, a: Action)
    requires Inv(s) && Safe(s) && Enabled(s, a)
    ensures Safe(Apply(s, a)) <==> !Breaks(s, a)
  {
    if a.StoreSlot? {
      StoreExactly(s, a);
    } else if a.Unref? || a.DropRef? {
      DropExactly(s, a);
    } else {
      OthersSafe(s, a);
    }
  }

  ghost predicate AlwaysSafe(r: Run)
    requires Valid(r)
  {
    Safe(Now(r)) && (r.After? ==> AlwaysSafe(r.run))
  }

  ghost predicate NeverBreaks(r: Run)
    requires Valid(r)
  {
    r.After? ==> NeverBreaks(r.run) && !Breaks(Now(r.run), r.action)
  }

  /** So a run stays safe if and only if no step of it is one of those. */
  lemma {:induction false} RunSafeExactly(r: Run)
    requires Valid(r)
    ensures AlwaysSafe(r) <==> NeverBreaks(r)
  {
    match r
    case Boot(n) =>
      forall o: Obj | o != NULL ensures !InUse(Fresh(n), o) {
        NumNone(Fresh(n).entries, Naming(o));
        NumNone(Fresh(n).calls, Counts(o));
        NumNone(Fresh(n).calls, Owns(o));
      }
    case After(q, a) =>
      RunSafeExactly(q);
      Conservation(q);
      if AlwaysSafe(q) { SafeExactly(Now(q), a); }
  }

  // ---------------------------------------------------------------- rights

  /** At some point of the run a caller that holds o asked alloc for a handle with these rights. */
  ghost predicate Granted(r: Run, o: Obj, caps: nat) {
    r.After? && ((r.action.BeginAlloc? && r.action.o == o && r.action.caps == caps) || Granted(r.run, o, caps))
  }

  /** Every one of these rights on o goes back to one such request. */
  ghost predicate Traced(r: Run, o: Obj, caps: nat) {
    exists g :: Granted(r, o, g) && Within(caps, g)
  }

  lemma TracedOn(r: Run, a: Action, o: Obj, caps: nat, less: nat)
    requires Traced(r, o, caps) && (less == caps || Allows(caps, less))
    ensures Traced(After(r, a), o, less)
  {
    var g :| Granted(r, o, g) && Within(caps, g);
    if less != caps { AllowsWithin(caps, less); }
    assert Granted(After(r, a), o, g) && Within(less, g);
  }

  lemma TracedFirst(r: Run, a: Action)
    requires a.BeginAlloc?
    ensures Traced(After(r, a), a.o, a.caps)
  {
    assert Granted(After(r, a), a.o, a.caps) && Within(a.caps, a.caps);
  }

  ghost predicate EntryOk(r: Run, e: Entry) { e.obj != NULL ==> Traced(r, e.obj, e.caps) }
  ghost predicate StoringOk(r: Run, c: Call) { c.Storing? ==> Traced(r, c.obj, c.caps) }

  ghost predicate AllTraced(r: Run, s: State) {
    && (forall i | 0 <= i < |s.entries| :: EntryOk(r, s.entries[i]))
    && (forall t | 0 <= t < |s.calls| :: StoringOk(r, s.calls[t]))
  }

  lemma SizesKept(s: State, a: Action)
    requires Enabled(s, a)
    ensures |Apply(s, a).entries| == |s.entries| && |Apply(s, a).calls| == |s.calls|
  {
  }

  lemma EntryTraced(r: Run, a: Action, i: nat)
    requires Valid(After(r, a))
    requires i < |Now(r).entries| && AllTraced(r, Now(r))
    ensures i < |Now(After(r, a)).entries| && EntryOk(After(r, a), Now(After(r, a)).entries[i])
  {
    var s, s' := Now(r), Now(After(r, a));
    SizesKept(s, a);
    var e, e' := s.entries[i], s'.entries[i];
    assert EntryOk(r, e);
    if e'.obj != NULL {
      if a.StoreSlot? && e' != e {
        var c := s.calls[a.t];
        assert StoringOk(r, c);
        TracedOn(r, a, c.obj, c.caps, c.caps);
      } else {
        TracedOn(r, a, e.obj, e.caps, e.caps);
      }
    }
  }

  /** A call comes to alloc with what its caller asked for, or with an entry's object and no more
      than the entry's rights. */
  lemma ComesToAlloc(s: State, a: Action, t: nat)
    requires Enabled(s, a) && t < |s.calls| && t < |Apply(s, a).calls|
    requires Apply(s, a).calls[t].Storing? && Apply(s, a).calls[t] != s.calls[t]
    ensures var c := Apply(s, a).calls[t];
            || (a.BeginAlloc? && c.obj == a.o && c.caps == a.caps)
            || ((a.DupLook? || a.TransferLook?) && IdxOf(a.h) < |s.entries| &&
                var e := s.entries[IdxOf(a.h)]; e.obj == c.obj != NULL && (c.caps == e.caps || Allows(e.caps, c.caps)))
  {
  }

  lemma CallTraced(r: Run, a: Action, t: nat)
    requires Valid(After(r, a))
    requires t < |Now(r).calls| && AllTraced(r, Now(r))
    ensures t < |Now(After(r, a)).calls| && StoringOk(After(r, a), Now(After(r, a)).calls[t])
  {
    var s, s' := Now(r), Now(After(r, a));
    SizesKept(s, a);
    var c, c' := s.calls[t], s'.calls[t];
    assert StoringOk(r, c);
    if c'.Storing? {
      if c' == c {
        TracedOn(r, a, c.obj, c.caps, c.caps);
        return;
      }
      ComesToAlloc(s, a, t);
      if a.BeginAlloc? {
        TracedFirst(r, a);
      } else {
        var e := s.entries[IdxOf(a.h)];
        assert EntryOk(r, e);
        TracedOn(r, a, e.obj, e.caps, c'.caps);
      }
    }
  }

  /** Over every interleaving, duplicating and transferring never add a right: what an entry
      grants on its object, one caller that held the object granted. */
  lemma {:induction false} RightsTraced(r: Run)
    requires Valid(r)
    ensures AllTraced(r, Now(r))
  {
    match r
    case Boot(n) =>
    case After(q, a) =>
      RightsTraced(q);
      SizesKept(Now(q), a);
      forall i | 0 <= i < |Now(q).entries| ensures EntryOk(r, Now(r).entries[i]) { EntryTraced(q, a, i); }
      forall t | 0 <= t < |Now(q).calls| ensures StoringOk(r, Now(r).calls[t]) { CallTraced(q, a, t); }
  }

  // ---------------------------------------------------------------- callers that take turns

  /** The call is a dup of the handle in slot i. */
  predicate Dups(c: Call, i: nat) { (c.Storing? || c.Counting?) && c.why == ByDup(i) }

  /** A handle is duplicated, transferred or closed only after the call that made it has
      returned, and not transferred or closed while it is being duplicated. */
  ghost predicate Polite(s: State, a: Action)
    requires Enabled(s, a)
  {
    match a
    case DupLook(_, h, _) => |s.owing| == CAPACITY && s.owing[IdxOf(h)] == NULL
    case TransferLook(_, h) => s.owing[IdxOf(h)] == NULL && forall t | 0 <= t < |s.calls| :: !Dups(s.calls[t], IdxOf(h))
    case CloseLook(_, h) => s.owing[IdxOf(h)] == NULL && forall t | 0 <= t < |s.calls| :: !Dups(s.calls[t], IdxOf(h))
    case _ => true
  }

  /** An increment to come belongs to a slot that still names the object, and the slot a dup
      started from names it with a counted reference. */
  ghost predicate CallMeant(s: State, c: Call) {
    && (c.Counting? ==> c.slot < |s.entries| && c.slot < |s.owing| && s.entries[c.slot].obj == s.owing[c.slot] == c.obj)
    && ((c.Storing? || c.Counting?) && c.why.ByDup? ==>
          c.why.src < |s.entries| && c.why.src < |s.owing| && s.entries[c.why.src].obj == c.obj && s.owing[c.why.src] == NULL)
  }

  ghost predicate Apart(c: Call, d: Call) { c.Counting? && d.Counting? ==> c.slot != d.slot }

  ghost predicate Settled(s: State) {
    && Inv(s)
    && (forall t | 0 <= t < |s.calls| :: CallMeant(s, s.calls[t]))
    && (forall t, u | 0 <= t < u < |s.calls| :: Apart(s.calls[t], s.calls[u]))
    && (forall i | 0 <= i < CAPACITY :: s.owing[i] == NULL || s.owing[i] == s.entries[i].obj)
    && (forall o: Obj | o != NULL :: Num(s.owing, Owes(o)) == Num(s.calls, Counts(o)))
  }

  /** Then the count is what the settled entries, callers, leaks and calls amount to. */
  lemma SettledCount(s: State, o: Obj)
    requires Settled(s) && o != NULL
    ensures RefsOf(s.refs, o) + Num(s.owing, Owes(o)) == Due(s, o) && Num(s.owing, Owes(o)) <= Names(s.entries, o)
    ensures forall i | 0 <= i < CAPACITY && s.entries[i].obj == o && s.owing[i] == NULL :: Num(s.owing, Owes(o)) < Names(s.entries, o)
  {
    assert Law(s, o);
    NumFewer(s.owing, Owes(o), s.entries, Naming(o), 0);
    forall i | 0 <= i < CAPACITY && s.entries[i].obj == o && s.owing[i] == NULL ensures Num(s.owing, Owes(o)) < Names(s.entries, o) {
      NumFewer(s.owing, Owes(o), s.entries, Naming(o), i);
    }
  }

  lemma {:induction false} SomeCall(calls: seq<Call>, f: Call -> bool) returns (t: nat)
    requires Num(calls, f) > 0
    ensures t < |calls| && f(calls[t])
  {
    t := |calls| - 1;
    if !f(calls[t]) { t := SomeCall(calls[..t], f); }
  }

  /** A settled state is safe. */
  lemma SettledSafe(s: State)
    requires Settled(s)
    ensures Safe(s)
  {
    forall o: Obj | o != NULL && InUse(s, o) ensures o in s.refs {
      SettledCount(s, o);
      if Num(s.calls, Counts(o)) > 0 {
        var t := SomeCall(s.calls, Counts(o));
        assert CallMeant(s, s.calls[t]);
        if Owns(o)(s.calls[t]) { NumPositive(s.calls, t, Owns(o)); }
      }
    }
  }

  /** No increment is pending for an object about to lose its last reference, and an object
      being duplicated is alive: a settled state has no step that breaks. */
  lemma SettledNeverBreaks(s: State, a: Action)
    requires Settled(s) && Enabled(s, a)
    ensures !Breaks(s, a)
  {
    SettledSafe(s);
    if a.StoreSlot? {
      var c := s.calls[a.t];
      assert CallMeant(s, c) && CallOk(c);
      if Owns(c.obj)(c) { NumPositive(s.calls, a.t, Owns(c.obj)); }
      SettledCount(s, c.obj);
    } else if a.Unref? || a.DropRef? {
      var o := if a.Unref? then a.o else s.calls[a.t].obj;
      assert a.DropRef? ==> CallOk(s.calls[a.t]);
      if s.refs[o] == 1 && Num(s.calls, Counts(o)) > 0 { LastWithIncrement(s, a, o); }
    }
  }

  lemma LastWithIncrement(s: State, a: Action, o: Obj)
    requires Settled(s) && o != NULL && Num(s.calls, Counts(o)) > 0 && o in s.refs
    requires (a.Unref? && o in s.held) || (a.DropRef? && a.t < |s.calls| && s.calls[a.t] == Dropping(o))
    ensures s.refs[o] > 1
  {
    SettledCount(s, o);
    var t := SomeCall(s.calls, Counts(o));
    assert CallMeant(s, s.calls[t]);
    var rest := if a.DropRef? then s.calls[a.t := Idle] else s.calls;
    if a.DropRef? { CallMoves(s, a.t, Idle, o); }
    if Owns(o)(s.calls[t]) { NumPositive(rest, t, Owns(o)); }
  }

  /** Settled, given the new table and what the owed increments amount to. */
  lemma SettledAgain(s: State, s': State, t: nat)
    requires Settled(s) && Inv(s') && |s'.calls| == |s.calls| && t < |s.calls| && s'.calls == s.calls[t := s'.calls[t]]
    requires CallMeant(s', s'.calls[t])
    requires forall u | 0 <= u < |s.calls| && u != t :: CallMeant(s', s.calls[u]) && Apart(s'.calls[t], s.calls[u])
    requires forall i | 0 <= i < CAPACITY :: s'.owing[i] == NULL || s'.owing[i] == s'.entries[i].obj
    requires forall o: Obj | o != NULL ::
        Num(s'.owing, Owes(o)) - Num(s.owing, Owes(o)) == (if Counts(o)(s'.calls[t]) then 1 else 0) - (if Counts(o)(s.calls[t]) then 1 else 0)
    ensures Settled(s')
  {
    forall u, v | 0 <= u < v < |s'.calls| ensures Apart(s'.calls[u], s'.calls[v]) {
      assert u != t && v != t ==> Apart(s.calls[u], s.calls[v]);
    }
    forall o: Obj | o != NULL ensures Num(s'.owing, Owes(o)) == Num(s'.calls, Counts(o)) {
      CallMoves(s, t, s'.calls[t], o);
    }
  }

  lemma BeginSettled(s: State, a: Action)
    requires Settled(s) && Enabled(s, a) && Polite(s, a) && (a.BeginAlloc? || a.DupLook? || a.DropRef?)
    ensures Settled(Apply(s, a))
  {
    var s' := Apply(s, a);
    StepKeeps(s, a);
    forall u | 0 <= u < |s.calls| && u != a.t ensures CallMeant(s', s.calls[u]) && Apart(s'.calls[a.t], s.calls[u]) {
      assert CallMeant(s, s.calls[u]);
    }
    SettledAgain(s, s', a.t);
  }

  lemma RetireSettled(s: State, a: Action)
    requires Settled(s) && Enabled(s, a) && Polite(s, a) && (a.TransferLook? || a.CloseLook?)
    ensures Settled(Apply(s, a))
  {
    var s', i := Apply(s, a), IdxOf(a.h);
    StepKeeps(s, a);
    assert s'.owing == s.owing;
    forall u | 0 <= u < |s.calls| && u != a.t ensures CallMeant(s', s.calls[u]) && Apart(s'.calls[a.t], s.calls[u]) {
      assert CallMeant(s, s.calls[u]) && CallOk(s.calls[u]) && !Dups(s.calls[u], i);
    }
    SettledAgain(s, s', a.t);
  }

  lemma StoreSettled(s: State, a: Action)
    requires Settled(s) && Enabled(s, a) && a.StoreSlot?
    ensures Settled(Apply(s, a))
  {
    var s', c := Apply(s, a), s.calls[a.t];
    StepKeeps(s, a);
    assert CallOk(c) && CallMeant(s, c);
    if s.free == [] {
      forall u | 0 <= u < |s.calls| && u != a.t ensures CallMeant(s', s.calls[u]) { assert CallMeant(s, s.calls[u]); }
    } else {
      var i := s.free[|s.free| - 1];
      assert s.entries[i].obj == NULL && s.owing[i] == NULL;
      forall u | 0 <= u < |s.calls| && u != a.t ensures CallMeant(s', s.calls[u]) && Apart(s'.calls[a.t], s.calls[u]) {
        assert CallMeant(s, s.calls[u]) && CallOk(s.calls[u]);
      }
      forall o: Obj | o != NULL ensures Num(s'.owing, Owes(o)) == Num(s.owing, Owes(o)) + if o == c.obj then 1 else 0 {
        NumUpdate(s.owing, i, c.obj, Owes(o));
      }
    }
    SettledAgain(s, s', a.t);
  }

  lemma CountSettled(s: State, a: Action)
    requires Settled(s) && Enabled(s, a) && a.CountRef?
    ensures Settled(Apply(s, a))
  {
    var s', c := Apply(s, a), s.calls[a.t];
    StepKeeps(s, a);
    assert CallOk(c) && CallMeant(s, c);
    forall u | 0 <= u < |s.calls| && u != a.t ensures CallMeant(s', s.calls[u]) && Apart(s'.calls[a.t], s.calls[u]) {
      assert CallMeant(s, s.calls[u]) && CallOk(s.calls[u]);
      assert if u < a.t then Apart(s.calls[u], c) else Apart(c, s.calls[u]);
    }
    forall o: Obj | o != NULL ensures Num(s'.owing, Owes(o)) == Num(s.owing, Owes(o)) - if o == c.obj then 1 else 0 {
      NumUpdate(s.owing, c.slot, NULL, Owes(o));
    }
    SettledAgain(s, s', a.t);
  }

  lemma PoliteKeeps(s: State, a: Action)
    requires Settled(s) && Enabled(s, a) && Polite(s, a)
    ensures Settled(Apply(s, a))
  {
    match a
    case BeginAlloc(_, _, _) => BeginSettled(s, a);
    case DupLook(_, _, _) => BeginSettled(s, a);
    case DropRef(_) => BeginSettled(s, a);
    case TransferLook(_, _) => RetireSettled(s, a);
    case CloseLook(_, _) => RetireSettled(s, a);
    case StoreSlot(_) => StoreSettled(s, a);
    case CountRef(_) => CountSettled(s, a);
    case _ =>
      StepKeeps(s, a);
      var s' := Apply(s, a);
      forall t | 0 <= t < |s.calls| ensures CallMeant(s', s.calls[t]) { assert CallMeant(s, s.calls[t]); }
  }

  ghost predicate AllPolite(r: Run)
    requires Valid(r)
  {
    r.After? ==> AllPolite(r.run) && Polite(Now(r.run), r.action)
  }

  /** If callers take turns on each handle in this way, then over every interleaving nothing
      that can be reached has been deleted, and every call under way can finish. */
  lemma {:induction false} PoliteIsSafe(r: Run)
    requires Valid(r) && AllPolite(r)
    ensures Settled(Now(r)) && Safe(Now(r))
    ensures forall i | 0 <= i < CAPACITY && Now(r).entries[i].obj != NULL :: Now(r).entries[i].obj in Now(r).refs
  {
    var s := Now(r);
    match r {
      case Boot(n) =>
        FreshOk(n);
        forall o: Obj | o != NULL ensures Num(s.owing, Owes(o)) == Num(s.calls, Counts(o)) {
          NumNone(s.owing, Owes(o));
          NumNone(s.calls, Counts(o));
        }
      case After(q, a) =>
        PoliteIsSafe(q);
        PoliteKeeps(Now(q), a);
    }
    SettledSafe(s);
    forall i | 0 <= i < CAPACITY && s.entries[i].obj != NULL ensures s.entries[i].obj in s.refs {
      NumPositive(s.entries, i, Naming(s.entries[i].obj));
      assert InUse(s, s.entries[i].obj);
    }
  }

  // ---------------------------------------------------------------- runs that break it

  /** The first handle of a table, with rights 3. */
  const HANDLE := 3 * P48 + P32 + 1

  lemma HandleParts()
    ensures HANDLE == Make(3, 1, 1) && IdxOf(HANDLE) == 1 && GenOf(HANDLE) == 1 && CapsOf(HANDLE) == 3 && Allows(3, 3)
  {
    MakeParts(3, 1, 1);
    AllowsSelf(3);
  }

  /** One step from one state to another. */
  ghost predicate Goes(s: State, a: Action, s': State) { Enabled(s, a) && s' == Apply(s, a) }

  lemma Extend(q: Run, a: Action, s: State) returns (r: Run)
    requires Valid(q) && Goes(Now(q), a, s)
    ensures r == After(q, a) && Valid(r) && Now(r) == s
  {
    r := After(q, a);
  }

  /** The states of these runs: two threads and one object, in slot 1 if in any. */
  ghost function At(e: Entry, free: seq<nat>, refs: map<Obj, nat>, held: multiset<Obj>, owed: Obj, calls: seq<Call>): State {
    State(FirstEntries()[1 := e], free, refs, {1}, held, multiset{}, NothingOwed()[1 := owed], calls)
  }

  /** The free list without slot 1. */
  function Rest(): seq<nat> { FirstFree()[..CAPACITY - 2] }

  lemma FreeTop()
    ensures FirstFree()[CAPACITY - 2] == 1 && Rest() + [1] == FirstFree()
    ensures FirstEntries()[1 := Entry(NULL, 0, 1)] == FirstEntries() && NothingOwed()[1 := NULL] == NothingOwed()
  {
  }

  /** Object 1 exists, its creator is in alloc. */
  lemma BegunRun() returns (r: Run)
    ensures Valid(r) && Now(r) == At(Entry(NULL, 0, 1), FirstFree(), map[1 := 1], multiset{}, NULL, [Storing(1, 3, ByHolder), Idle])
  {
    FreeTop();
    var s1 := At(Entry(NULL, 0, 1), FirstFree(), map[1 := 1], multiset{1}, NULL, [Idle, Idle]);
    assert Goes(Fresh(2), Create(1), s1);
    var q := Extend(Boot(2), Create(1), s1);
    var s2 := At(Entry(NULL, 0, 1), FirstFree(), map[1 := 1], multiset{}, NULL, [Storing(1, 3, ByHolder), Idle]);
    assert s1.held - multiset{1} == multiset{};
    assert Goes(s1, BeginAlloc(0, 1, 3), s2);
    r := Extend(q, BeginAlloc(0, 1, 3), s2);
  }

  lemma StoreGoes(calls: seq<Call>, calls': seq<Call>, why: Why, refs: map<Obj, nat>, g: nat)
    requires |calls| == 2 && calls[0] == Storing(1, 3, why) && calls' == calls[0 := Counting(1, 1, why)]
    ensures Goes(At(Entry(NULL, 0, g), FirstFree(), refs, multiset{}, NULL, calls), StoreSlot(0),
                 At(Entry(1, 3, g), Rest(), refs, multiset{}, 1, calls'))
  {
    FreeTop();
    var s, s' := At(Entry(NULL, 0, g), FirstFree(), refs, multiset{}, NULL, calls), At(Entry(1, 3, g), Rest(), refs, multiset{}, 1, calls');
    assert Used(s.entries, 1, 1, 3) == s'.entries && s.owing[1 := 1] == s'.owing;
  }

  /** And alloc has stored it in slot 1. */
  lemma StoredRun() returns (r: Run)
    ensures Valid(r) && Now(r) == At(Entry(1, 3, 1), Rest(), map[1 := 1], multiset{}, 1, [Counting(1, 1, ByHolder), Idle])
  {
    var q := BegunRun();
    StoreGoes([Storing(1, 3, ByHolder), Idle], [Counting(1, 1, ByHolder), Idle], ByHolder, map[1 := 1], 1);
    r := Extend(q, StoreSlot(0), At(Entry(1, 3, 1), Rest(), map[1 := 1], multiset{}, 1, [Counting(1, 1, ByHolder), Idle]));
  }

  /** alloc has returned and the creator has let go: the entry holds the only reference. */
  lemma OpenedRun() returns (r: Run)
    ensures Valid(r) && Now(r) == At(Entry(1, 3, 1), Rest(), map[1 := 1], multiset{}, NULL, [Idle, Idle])
  {
    var q := StoredRun();
    var s1 := At(Entry(1, 3, 1), Rest(), map[1 := 2], multiset{1}, NULL, [Idle, Idle]);
    assert Goes(Now(q), CountRef(0), s1);
    var q1 := Extend(q, CountRef(0), s1);
    var s2 := At(Entry(1, 3, 1), Rest(), map[1 := 1], multiset{}, NULL, [Idle, Idle]);
    assert s1.held - multiset{1} == multiset{};
    assert Goes(s1, Unref(1), s2);
    r := Extend(q1, Unref(1), s2);
  }

  lemma CloseGoes(owed: Obj, c: Call)
    ensures Goes(At(Entry(1, 3, 1), Rest(), map[1 := 1], multiset{}, owed, [c, Idle]), CloseLook(1, HANDLE),
                 At(Entry(NULL, 0, 2), FirstFree(), map[1 := 1], multiset{}, NULL, [c, Dropping(1)]))
  {
    FreeTop();
    HandleParts();
    var s := At(Entry(1, 3, 1), Rest(), map[1 := 1], multiset{}, owed, [c, Idle]);
    var s' := At(Entry(NULL, 0, 2), FirstFree(), map[1 := 1], multiset{}, NULL, [c, Dropping(1)]);
    assert Retired(s.entries, 1) == s'.entries && s.owing[1 := NULL] == s'.owing && s.calls[1 := Dropping(1)] == s'.calls;
  }

  lemma DropGoes(c: Call)
    ensures Goes(At(Entry(NULL, 0, 2), FirstFree(), map[1 := 1], multiset{}, NULL, [c, Dropping(1)]), DropRef(1),
                 At(Entry(NULL, 0, 2), FirstFree(), map[], multiset{}, NULL, [c, Idle]))
  {
    assert [c, Dropping(1)][1 := Idle] == [c, Idle];
    assert map[1 := 1] - {1} == map[];
  }

  /** A handle is closed while it is being duplicated: dup publishes an entry that names the
      deleted object. */
  lemma DupWhileClosing() returns (r: Run)
    ensures Valid(r) && !Safe(Now(r)) && 1 in Now(r).born && 1 !in Now(r).refs
    ensures exists i :: 0 <= i < |Now(r).entries| && Now(r).entries[i].obj == 1
  {
    var q := OpenedRun();
    var c := Storing(1, 3, ByDup(1));
    HandleParts();
    var q1 := Extend(q, DupLook(0, HANDLE, 3), At(Entry(1, 3, 1), Rest(), map[1 := 1], multiset{}, NULL, [c, Idle]));
    CloseGoes(NULL, c);
    var q2 := Extend(q1, CloseLook(1, HANDLE), At(Entry(NULL, 0, 2), FirstFree(), map[1 := 1], multiset{}, NULL, [c, Dropping(1)]));
    DropGoes(c);
    var q3 := Extend(q2, DropRef(1), At(Entry(NULL, 0, 2), FirstFree(), map[], multiset{}, NULL, [c, Idle]));
    StoreGoes([c, Idle], [Counting(1, 1, ByDup(1)), Idle], ByDup(1), map[], 2);
    r := Extend(q3, StoreSlot(0), At(Entry(1, 3, 2), Rest(), map[], multiset{}, 1, [Counting(1, 1, ByDup(1)), Idle]));
    NamedNotSafe(Now(r), 1);
  }

  lemma NamedNotSafe(s: State, i: nat)
    requires i < |s.entries| && s.entries[i].obj != NULL && s.entries[i].obj !in s.refs
    ensures !Safe(s) && exists j :: 0 <= j < |s.entries| && s.entries[j].obj == s.entries[i].obj
  {
    NumPositive(s.entries, i, Naming(s.entries[i].obj));
    assert InUse(s, s.entries[i].obj);
  }

  /** Even without dup: a handle is closed after alloc has stored it and before alloc has
      counted its reference, and alloc's own caller is left with a deleted object. */
  lemma CloseBeforeCounted() returns (r: Run)
    ensures Valid(r) && !Safe(Now(r)) && |Now(r).calls| > 0 && Now(r).calls[0] == Counting(1, 1, ByHolder) && 1 !in Now(r).refs
  {
    var c := Counting(1, 1, ByHolder);
    var q := StoredRun();
    CloseGoes(1, c);
    var q1 := Extend(q, CloseLook(1, HANDLE), At(Entry(NULL, 0, 2), FirstFree(), map[1 := 1], multiset{}, NULL, [c, Dropping(1)]));
    DropGoes(c);
    r := Extend(q1, DropRef(1), At(Entry(NULL, 0, 2), FirstFree(), map[], multiset{}, NULL, [c, Idle]));
    CountingNotSafe(Now(r), 0);
  }

  lemma CountingNotSafe(s: State, t: nat)
    requires t < |s.calls| && s.calls[t].Counting? && s.calls[t].obj != NULL && s.calls[t].obj !in s.refs
    ensures !Safe(s)
  {
    NumPositive(s.calls, t, Counts(s.calls[t].obj));
    assert InUse(s, s.calls[t].obj);
  }

  /** A thread's alloc takes the only free slot. */
  lemma LastSlot(s: State, u: nat, x: Obj, caps: nat, i: nat) returns (s1: State, s2: State)
    requires s.free == [i] && i < |s.entries| == |s.owing| && IsIdle(s, u) && x != NULL && x in s.held
    ensures Goes(s, BeginAlloc(u, x, caps), s1) && Goes(s1, StoreSlot(u), s2)
    ensures s2.entries == Used(s.entries, i, x, caps) && s2.free == [] && s2.refs == s.refs && s2.leaked == s.leaked
    ensures |s2.calls| == |s.calls| && forall t | 0 <= t < |s.calls| && t != u :: s2.calls[t] == s.calls[t]
  {
    s1 := Apply(s, BeginAlloc(u, x, caps));
    s2 := Apply(s1, StoreSlot(u));
  }

  /** transfer finds no slot and gives its temporary reference back. */
  lemma EmptyHanded(s: State, t: nat, o: Obj, caps: nat) returns (s1: State, s2: State)
    requires s.free == [] && t < |s.calls| && s.calls[t] == Storing(o, caps, ByTransfer) && o in s.refs && s.refs[o] > 1
    ensures Goes(s, StoreSlot(t), s1) && Goes(s1, DropRef(t), s2) && IsIdle(s2, t)
    ensures s2.entries == s.entries && s2.refs == s.refs[o := s.refs[o] - 1] && s2.leaked == s.leaked
  {
    s1 := Apply(s, StoreSlot(t));
    s2 := Apply(s1, DropRef(t));
  }

  lemma Detached(s: State, t: nat, h: nat) returns (s1: State)
    requires Inv(s) && s.free == [] && IsIdle(s, t) && Matches(s.entries, h) && s.entries[IdxOf(h)].obj in s.refs
    ensures Goes(s, TransferLook(t, h), s1) && s1.free == [IdxOf(h)] && |s1.owing| == |s1.entries| == CAPACITY && s1.held == s.held
    ensures NULL !in s1.held && s1.refs[s.entries[IdxOf(h)].obj] > 1
    ensures s1.entries == Retired(s.entries, IdxOf(h)) && s1.refs == Counted(s.refs, s.entries[IdxOf(h)].obj)
    ensures s1.leaked == s.leaked + multiset{s.entries[IdxOf(h)].obj}
    ensures s1.calls == s.calls[t := Storing(s.entries[IdxOf(h)].obj, s.entries[IdxOf(h)].caps, ByTransfer)]
  {
    s1 := Apply(s, TransferLook(t, h));
  }

  lemma SlotGone(es: seq<Entry>, h: nat, x: Obj, caps: nat)
    requires Matches(es, h) && x != es[IdxOf(h)].obj
    ensures var es' := Used(Retired(es, IdxOf(h)), IdxOf(h), x, caps);
            !Matches(es', h) && Names(es', es[IdxOf(h)].obj) == Names(es, es[IdxOf(h)].obj) - 1
  {
    var i := IdxOf(h);
    var es1, o := Retired(es, i), es[i].obj;
    NextGenDiffers(GenOf(h));
    NumUpdate(es, i, es1[i], Naming(o));
    NumUpdate(es1, i, Used(es1, i, x, caps)[i], Naming(o));
  }

  /** Another alloc takes the slot before transfer does. */
  lemma Overtaken(s: State, t: nat, u: nat, i: nat, o: Obj, rights: nat, x: Obj, caps: nat)
    returns (s1: State, s2: State, s3: State, s4: State)
    requires s.free == [i] && i < |s.entries| == |s.owing| && t != u && t < |s.calls| && IsIdle(s, u) && x != NULL && x in s.held
    requires s.calls[t] == Storing(o, rights, ByTransfer) && o in s.refs && s.refs[o] > 1
    ensures Goes(s, BeginAlloc(u, x, caps), s1) && Goes(s1, StoreSlot(u), s2) && Goes(s2, StoreSlot(t), s3) && Goes(s3, DropRef(t), s4)
    ensures IsIdle(s4, t) && s4.entries == Used(s.entries, i, x, caps) && s4.refs == s.refs[o := s.refs[o] - 1] && s4.leaked == s.leaked
  {
    s1, s2 := LastSlot(s, u, x, caps, i);
    s3, s4 := EmptyHanded(s2, t, o, rights);
  }

  /** In a full table the slot that transfer frees can be taken before transfer stores: the
      transfer ends without a handle, the old one is dead, and the reference that the old
      entry had is never given back. */
  lemma TransferLosesSlot(s: State, t: nat, u: nat, h: nat, x: Obj, caps: nat)
    returns (s1: State, s2: State, s3: State, s4: State, s5: State)
    requires Inv(s) && s.free == [] && t != u && IsIdle(s, t) && IsIdle(s, u) && Matches(s.entries, h)
    requires s.entries[IdxOf(h)].obj in s.refs && x in s.held && x != s.entries[IdxOf(h)].obj
    ensures Goes(s, TransferLook(t, h), s1) && Goes(s1, BeginAlloc(u, x, caps), s2) && Goes(s2, StoreSlot(u), s3)
    ensures Goes(s3, StoreSlot(t), s4) && Goes(s4, DropRef(t), s5) && IsIdle(s5, t)
    ensures var o := s.entries[IdxOf(h)].obj;
            && !Matches(s5.entries, h) && Names(s5.entries, o) == Names(s.entries, o) - 1
            && s5.refs == s.refs && s5.leaked == s.leaked + multiset{o}
  {
    s1 := Detached(s, t, h);
    var o := s.entries[IdxOf(h)].obj;
    s2, s3, s4, s5 := Overtaken(s1, t, u, IdxOf(h), o, s.entries[IdxOf(h)].caps, x, caps);
    assert s1.refs[o := s1.refs[o] - 1] == s.refs;
    SlotGone(s.entries, h, x, caps);
  }

  /** Objects 1 and 2 exist and n handles name object 1, the one in slot 1 among them. */
  ghost predicate Filled(s: State, n: nat) {
    && n < CAPACITY && s.free == FirstFree()[..CAPACITY - 1 - n] && |s.entries| == |s.owing| == CAPACITY
    && s.calls == [Idle, Idle] && 1 in s.held && 2 in s.held && 1 in s.refs && 2 in s.refs
    && s.entries[1] == Entry(if n == 0 then NULL else 1, if n == 0 then 0 else 3, 1)
  }

  /** One more call of alloc. */
  lemma FillSteps(s: State, n: nat) returns (s1: State, s2: State, s3: State)
    requires Filled(s, n) && n < CAPACITY - 1
    ensures Goes(s, BeginAlloc(0, 1, 3), s1) && Goes(s1, StoreSlot(0), s2) && Goes(s2, CountRef(0), s3) && Filled(s3, n + 1)
  {
    var i := FirstFree()[CAPACITY - 2 - n];
    assert i == n + 1 && s.free[|s.free| - 1] == i;
    s1 := s.(held := s.held - multiset{1}, calls := [Storing(1, 3, ByHolder), Idle]);
    s2 := s1.(entries := Used(s.entries, i, 1, 3), free := s.free[..|s.free| - 1], owing := s.owing[i := 1], calls := [Counting(1, i, ByHolder), Idle]);
    s3 := s2.(refs := Counted(s.refs, 1), owing := s2.owing[i := NULL], held := s1.held + multiset{1}, calls := [Idle, Idle]);
    assert s3.free == FirstFree()[..CAPACITY - 2 - n];
  }

  lemma FillOne(q: Run, n: nat) returns (r: Run)
    requires Valid(q) && Filled(Now(q), n) && n < CAPACITY - 1
    ensures Valid(r) && Filled(Now(r), n + 1)
  {
    var s1, s2, s3 := FillSteps(Now(q), n);
    var q1 := Extend(q, BeginAlloc(0, 1, 3), s1);
    var q2 := Extend(q1, StoreSlot(0), s2);
    r := Extend(q2, CountRef(0), s3);
  }

  lemma {:induction false} FilledRun(n: nat) returns (r: Run)
    requires n < CAPACITY
    ensures Valid(r) && Filled(Now(r), n)
  {
    if n == 0 {
      var q := Extend(Boot(2), Create(1), Apply(Fresh(2), Create(1)));
      r := Extend(q, Create(2), Apply(Now(q), Create(2)));
      assert Now(r).calls == [Idle, Idle] && FirstFree()[..CAPACITY - 1] == FirstFree();
    } else {
      var q := FilledRun(n - 1);
      r := FillOne(q, n - 1);
    }
  }

  /** A full table is reached, and with it what the lost slot takes. */
  lemma FullTableReached() returns (r: Run)
    ensures Valid(r) && var s := Now(r);
            && Inv(s) && s.free == [] && IsIdle(s, 0) && IsIdle(s, 1) && Matches(s.entries, HANDLE)
            && s.entries[IdxOf(HANDLE)].obj in s.refs && 2 in s.held && 2 != s.entries[IdxOf(HANDLE)].obj
  {
    r := FilledRun(CAPACITY - 1);
    Conservation(r);
    HandleParts();
  }
}
