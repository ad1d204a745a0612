/** The object namespace under interleaving. A walk of ons_resolve takes and drops a reference
    for every container on its way, and bind, unbind and the destructor of a container hold its
    lock only while they change it, so each lookup, bind, unbind and reference count operation is
    a step of its own, and every thread may be in the middle of one call. */
module NamespaceProtocol {
  import opened Common
  import opened Counting
  import opened ObjectNamespace
  import opened Walks

  /** Where a thread is: it has a reference to `at`, where its walk has got to; it is about to
      drop its reference to `drop`; and before it goes on it empties the deleted containers
      `dying`, the last one first. */
  datatype Call = Call(at: Obj, drop: Obj, dying: seq<Obj>)

  const IDLE := Call(NULL, NULL, [])

  /** refs has the objects that have not been deleted, born also those that have; held are the
      references of callers, the root's own one among them. */
  datatype State = State(root: Obj, isDir: Obj -> bool, refs: Refs, born: set<Obj>, bind: Bindings, held: multiset<Obj>, calls: seq<Call>)

  // ---------------------------------------------------------------- steps

  datatype Action =
    | Create(o: Obj) | Ref(o: Obj) | Unref(t: nat, o: Obj)
    | Begin(t: nat) | Look(t: nat, name: string) | Return(t: nat) | GiveUp(t: nat)
    | Bind(t: nat, name: string, o: Obj, memory: bool) | Unbind(t: nat, name: string)
    | Drop(t: nat) | Shed(t: nat, e: Edge) | Emptied(t: nat)

  /** The thread can go on with its walk. */
  ghost predicate Free(s: State, t: nat) { t < |s.calls| && s.calls[t].drop == NULL && s.calls[t].dying == [] }

  ghost predicate AtDir(s: State, t: nat) { Free(s, t) && s.calls[t].at in s.refs && s.isDir(s.calls[t].at) }

  /** The container whose bindings the thread is dropping. */
  ghost predicate Emptying(s: State, t: nat, o: Obj) {
    t < |s.calls| && s.calls[t].drop == NULL && s.calls[t].dying != [] && s.calls[t].dying[|s.calls[t].dying| - 1] == o
  }

  ghost predicate Enabled(s: State, a: Action) {
    match a
    case Create(o) => o != NULL && o !in s.born
    case Ref(o) => o in s.held && o in s.refs
    case Unref(t, o) => Free(s, t) && s.calls[t].at == NULL && o in s.held && (o == s.root ==> s.held[o] > 1)
    case Begin(t) => Free(s, t) && s.calls[t].at == NULL && s.root in s.refs
    case Look(t, name) => AtDir(s, t) && (Edge(s.calls[t].at, name) in s.bind ==> s.bind[Edge(s.calls[t].at, name)] in s.refs)
    case Return(t) => Free(s, t) && s.calls[t].at != NULL
    case GiveUp(t) => Free(s, t) && s.calls[t].at != NULL
    case Bind(t, name, o, _) => AtDir(s, t) && o in s.held && o in s.refs
    case Unbind(t, name) => AtDir(s, t)
    case Drop(t) => t < |s.calls| && s.calls[t].drop in s.refs && s.refs[s.calls[t].drop] > 0
    case Shed(t, e) => Emptying(s, t, e.dir) && e in s.bind
    case Emptied(t) =>
      t < |s.calls| && s.calls[t].drop == NULL && s.calls[t].dying != [] && forall e | e in s.bind :: !Emptying(s, t, e.dir)
  }

  ghost function Set(s: State, t: nat, c: Call): State
    requires t < |s.calls|
  {
    s.(calls := s.calls[t := c])
  }

  /** kobject_unref: the last reference deletes the object, and a container is emptied. */
  ghost function Dropped(s: State, t: nat): State
    requires Enabled(s, Drop(t))
  {
    var c, o := s.calls[t], s.calls[t].drop;
    if s.refs[o] > 1 then Set(s.(refs := s.refs[o := s.refs[o] - 1]), t, c.(drop := NULL))
    else Set(s.(refs := s.refs - {o}), t, c.(drop := NULL, dying := if s.isDir(o) then c.dying + [o] else c.dying))
  }

  ghost function Apply(s: State, a: Action): State
    requires Enabled(s, a)
  {
    match a
    case Create(o) => s.(refs := s.refs[o := 1], born := s.born + {o}, held := s.held + multiset{o})
    case Ref(o) => s.(refs := More(s.refs, o), held := s.held + multiset{o})
    case Unref(t, o) => Set(s.(held := s.held - multiset{o}), t, Call(NULL, o, []))
    case Begin(t) => Set(s.(refs := More(s.refs, s.root)), t, Call(s.root, NULL, []))
    case Look(t, name) =>
      var c := s.calls[t].at;
      if Edge(c, name) in s.bind
      then var o := s.bind[Edge(c, name)]; Set(s.(refs := More(s.refs, o)), t, Call(o, c, []))
      else Set(s, t, Call(NULL, c, []))
    case Return(t) => Set(s.(held := s.held + multiset{s.calls[t].at}), t, IDLE)
    case GiveUp(t) => Set(s, t, Call(NULL, s.calls[t].at, []))
    case Bind(t, name, o, memory) =>
      var c := s.calls[t].at;
      if |name| < Container.NAME_LIMIT && Edge(c, name) !in s.bind && memory
      then Set(s.(bind := s.bind[Edge(c, name) := o], refs := More(s.refs, o)), t, Call(NULL, c, []))
      else Set(s, t, Call(NULL, c, []))
    case Unbind(t, name) =>
      var c := s.calls[t].at;
      if Edge(c, name) in s.bind
      then Set(s.(bind := s.bind - {Edge(c, name)}), t, Call(c, s.bind[Edge(c, name)], []))
      else Set(s, t, Call(NULL, c, []))
    case Drop(t) => Dropped(s, t)
    case Shed(t, e) => Set(s.(bind := s.bind - {e}), t, s.calls[t].(drop := s.bind[e]))
    case Emptied(t) => Set(s, t, s.calls[t].(dying := s.calls[t].dying[..|s.calls[t].dying| - 1]))
  }

  // ---------------------------------------------------------------- runs

  datatype Run = Boot(root: Obj, isDir: Obj -> bool, threads: nat) | After(run: Run, action: Action)

  ghost predicate Valid(r: Run)
    decreases r, 0
  {
    match r
    case Boot(root, isDir, _) => root != NULL && isDir(root)
    case After(q, a) => Valid(q) && Enabled(Now(q), a)
  }

  ghost function Now(r: Run): State
    requires Valid(r)
    decreases r, 1
  {
    match r
    case Boot(root, isDir, n) => State(root, isDir, map[root := 1], {root}, map[], multiset{root}, seq(n, _ => IDLE))
    case After(q, a) => Apply(Now(q), a)
  }

  // ---------------------------------------------------------------- conservation

  function IsAt(o: Obj): Call -> bool { (c: Call) => c.at == o }
  function Drops(o: Obj): Call -> bool { (c: Call) => c.drop == o }

  ghost function RefsOf(refs: Refs, o: Obj): nat { if o in refs then refs[o] else 0 }

  /** A count is the bindings that name the object, the references of callers, and those of the
      calls under way. */
  ghost predicate Law(s: State, o: Obj) {
    RefsOf(s.refs, o) == InDegree(s.bind, o) + s.held[o] + Num(s.calls, IsAt(o)) + Num(s.calls, Drops(o))
  }

  ghost predicate DyingAt(s: State, t: int, o: Obj) { 0 <= t < |s.calls| && o in s.calls[t].dying }

  /** A binding is in a container that is alive or that some thread is emptying. */
  ghost predicate EdgeFits(s: State, e: Edge) {
    s.isDir(e.dir) && |e.name| < Container.NAME_LIMIT && (e.dir in s.refs || exists t :: DyingAt(s, t, e.dir))
  }

  ghost predicate CallFits(s: State, c: Call) {
    forall i | 0 <= i < |c.dying| :: c.dying[i] in s.born && c.dying[i] !in s.refs
  }

  ghost predicate Inv(s: State) {
    && s.root != NULL && s.isDir(s.root) && s.root in s.held && NULL !in s.refs && NULL !in s.held
    && (forall o | o in s.refs :: s.refs[o] > 0 && o in s.born)
    && (forall e | e in s.bind :: EdgeFits(s, e) && s.bind[e] != NULL)
    && (forall t | 0 <= t < |s.calls| :: CallFits(s, s.calls[t]))
    && (forall o: Obj | o != NULL :: Law(s, o))
  }

  /** Whatever a binding, a caller or a call has a reference to has not been deleted. */
  ghost predicate Safe(s: State) {
    && (forall e | e in s.bind :: s.bind[e] in s.refs)
    && (forall o | o in s.held :: o in s.refs)
    && (forall t | 0 <= t < |s.calls| :: (s.calls[t].at != NULL ==> s.calls[t].at in s.refs) && (s.calls[t].drop != NULL ==> s.calls[t].drop in s.refs))
  }

  lemma BoundLives(s: State, e: Edge)
    requires Inv(s) && e in s.bind
    ensures s.bind[e] in s.refs
  {
    assert Law(s, s.bind[e]) && e in EdgesTo(s.bind, s.bind[e]);
  }

  lemma CallLives(s: State, t: nat)
    requires Inv(s) && t < |s.calls|
    ensures s.calls[t].at != NULL ==> s.calls[t].at in s.refs
    ensures s.calls[t].drop != NULL ==> s.calls[t].drop in s.refs
  {
    var c := s.calls[t];
    if c.at != NULL {
      assert Law(s, c.at);
      NumPositive(s.calls, t, IsAt(c.at));
    }
    if c.drop != NULL {
      assert Law(s, c.drop);
      NumPositive(s.calls, t, Drops(c.drop));
    }
  }

  lemma InvSafe(s: State)
    requires Inv(s)
    ensures Safe(s)
  {
    forall e | e in s.bind ensures s.bind[e] in s.refs { BoundLives(s, e); }
    forall o | o in s.held ensures o in s.refs { assert Law(s, o); }
    forall t: nat | t < |s.calls|
      ensures (s.calls[t].at != NULL ==> s.calls[t].at in s.refs) && (s.calls[t].drop != NULL ==> s.calls[t].drop in s.refs)
    {
      CallLives(s, t);
    }
  }

  // ---------------------------------------------------------------- every step keeps it

  function One(b: bool): nat { if b then 1 else 0 }

  lemma CallMoves(s: State, t: nat, c: Call, o: Obj)
    requires t < |s.calls|
    ensures Num(s.calls[t := c], IsAt(o)) == Num(s.calls, IsAt(o)) - One(s.calls[t].at == o) + One(c.at == o)
    ensures Num(s.calls[t := c], Drops(o)) == Num(s.calls, Drops(o)) - One(s.calls[t].drop == o) + One(c.drop == o)
  {
    NumUpdate(s.calls, t, c, IsAt(o));
    NumUpdate(s.calls, t, c, Drops(o));
  }

  /** What holds of bindings and calls holds on if nothing is deleted, one call moves, keeping
      what it empties, and bindings only go. */
  lemma FitsOn(s: State, s': State, t: nat)
    requires Inv(s) && t < |s.calls| && |s'.calls| == |s.calls| && s'.calls == s.calls[t := s'.calls[t]] && s'.isDir == s.isDir
    requires s.refs.Keys == s'.refs.Keys && s'.born == s.born && s.calls[t].dying == s'.calls[t].dying
    requires forall e | e in s'.bind :: e in s.bind && s'.bind[e] == s.bind[e]
    ensures forall e | e in s'.bind :: EdgeFits(s', e) && s'.bind[e] != NULL
    ensures forall u | 0 <= u < |s'.calls| :: CallFits(s', s'.calls[u])
  {
    forall e | e in s'.bind ensures EdgeFits(s', e) {
      assert EdgeFits(s, e);
      if u :| DyingAt(s, u, e.dir) { assert DyingAt(s', u, e.dir); }
    }
    forall u | 0 <= u < |s'.calls| ensures CallFits(s', s'.calls[u]) { assert CallFits(s, s.calls[u]); }
  }

  lemma OutsideKeeps(s: State, a: Action)
    requires Inv(s) && Enabled(s, a) && (a.Create? || a.Ref?)
    ensures Inv(Apply(s, a))
  {
    var s' := Apply(s, a);
    forall e | e in s'.bind ensures EdgeFits(s', e) {
      assert EdgeFits(s, e);
      if u :| DyingAt(s, u, e.dir) { assert DyingAt(s', u, e.dir); }
    }
    forall u | 0 <= u < |s'.calls| ensures CallFits(s', s'.calls[u]) { assert CallFits(s, s.calls[u]); }
    forall o: Obj | o != NULL ensures Law(s', o) { assert Law(s, o); }
  }

  lemma WalkLaw(s: State, a: Action, o: Obj)
    requires Law(s, o) && NULL !in s.refs && o != NULL && Enabled(s, a) && (a.Unref? || a.Begin? || a.Look? || a.Return? || a.GiveUp?)
    ensures Law(Apply(s, a), o)
  {
    CallMoves(s, a.t, Apply(s, a).calls[a.t], o);
  }

  lemma WalkKeeps(s: State, a: Action)
    requires Inv(s) && Enabled(s, a) && (a.Unref? || a.Begin? || a.Look? || a.Return? || a.GiveUp?)
    ensures Inv(Apply(s, a))
  {
    var s' := Apply(s, a);
    assert s'.refs.Keys == s.refs.Keys;
    FitsOn(s, s', a.t);
    forall o: Obj | o != NULL ensures Law(s', o) { WalkLaw(s, a, o); }
  }

  lemma BindKeeps(s: State, a: Action)
    requires Inv(s) && Enabled(s, a) && a.Bind?
    ensures Inv(Apply(s, a))
  {
    var s', e := Apply(s, a), Edge(s.calls[a.t].at, a.name);
    var s1 := s'.(bind := s.bind);
    FitsOn(s, s1, a.t);
    if s'.bind != s.bind {
      forall e1 | e1 in s'.bind ensures EdgeFits(s', e1) && s'.bind[e1] != NULL {
        if e1 != e {
          assert EdgeFits(s1, e1);
          if u :| DyingAt(s1, u, e1.dir) { assert DyingAt(s', u, e1.dir); }
        }
      }
    }
    forall u | 0 <= u < |s'.calls| ensures CallFits(s', s'.calls[u]) { assert CallFits(s1, s1.calls[u]); }
    forall o: Obj | o != NULL ensures Law(s', o) {
      assert Law(s, o);
      CallMoves(s, a.t, s'.calls[a.t], o);
      if s'.bind != s.bind { InDegreeAdd(s.bind, e, a.o, o); }
    }
  }

  lemma UnbindKeeps(s: State, a: Action)
    requires Inv(s) && Enabled(s, a) && (a.Unbind? || a.Shed?)
    ensures Inv(Apply(s, a))
  {
    var s', e := Apply(s, a), if a.Shed? then a.e else Edge(s.calls[a.t].at, a.name);
    FitsOn(s, s', a.t);
    forall o: Obj | o != NULL ensures Law(s', o) {
      assert Law(s, o);
      CallMoves(s, a.t, s'.calls[a.t], o);
      if e in s.bind { InDegreeRemove(s.bind, e, o); }
    }
  }

  lemma DropLaw(s: State, a: Action, o: Obj)
    requires Law(s, o) && NULL !in s.refs && o != NULL && Enabled(s, a) && a.Drop?
    ensures Law(Apply(s, a), o)
  {
    CallMoves(s, a.t, Apply(s, a).calls[a.t], o);
  }

  lemma DropFits(s: State, a: Action, e: Edge)
    requires Inv(s) && Enabled(s, a) && a.Drop? && e in s.bind
    ensures EdgeFits(Apply(s, a), e)
  {
    var s', o := Apply(s, a), s.calls[a.t].drop;
    assert EdgeFits(s, e);
    if u :| DyingAt(s, u, e.dir) { assert DyingAt(s', u, e.dir); }
    if e.dir == o && o !in s'.refs { assert DyingAt(s', a.t, o); }
  }

  lemma DropKeeps(s: State, a: Action)
    requires Inv(s) && Enabled(s, a) && a.Drop?
    ensures Inv(Apply(s, a))
  {
    var s' := Apply(s, a);
    forall o: Obj | o != NULL ensures Law(s', o) { DropLaw(s, a, o); }
    forall e | e in s'.bind ensures EdgeFits(s', e) { DropFits(s, a, e); }
    forall u | 0 <= u < |s'.calls| ensures CallFits(s', s'.calls[u]) { assert CallFits(s, s.calls[u]); }
  }

  lemma EmptiedKeeps(s: State, a: Action)
    requires Inv(s) && Enabled(s, a) && a.Emptied?
    ensures Inv(Apply(s, a))
  {
    var s', d := Apply(s, a), s.calls[a.t].dying;
    forall e | e in s'.bind ensures EdgeFits(s', e) {
      assert EdgeFits(s, e);
      if u :| DyingAt(s, u, e.dir) {
        if u == a.t { assert d == d[..|d| - 1] + [d[|d| - 1]]; }
        assert DyingAt(s', u, e.dir);
      }
    }
    forall u | 0 <= u < |s'.calls| ensures CallFits(s', s'.calls[u]) { assert CallFits(s, s.calls[u]); }
    forall o: Obj | o != NULL ensures Law(s', o) {
      assert Law(s, o);
      CallMoves(s, a.t, s'.calls[a.t], o);
    }
  }

  lemma StepKeeps(s: State, a: Action)
    requires Inv(s) && Enabled(s, a)
    ensures Inv(Apply(s, a))
  {
    match a
    case Create(_) => OutsideKeeps(s, a);
    case Ref(_) => OutsideKeeps(s, a);
    case Bind(_, _, _, _) => BindKeeps(s, a);
    case Unbind(_, _) => UnbindKeeps(s, a);
    case Shed(_, _) => UnbindKeeps(s, a);
    case Drop(_) => DropKeeps(s, a);
    case Emptied(_) => EmptiedKeeps(s, a);
    case _ => WalkKeeps(s, a);
  }

  lemma BootOk(root: Obj, isDir: Obj -> bool, n: nat)
    requires root != NULL && isDir(root)
    ensures Inv(Now(Boot(root, isDir, n)))
  {
    var s := Now(Boot(root, isDir, n));
    forall o: Obj | o != NULL ensures Law(s, o) {
      assert EdgesTo(s.bind, o) == {};
      NumNone(s.calls, IsAt(o));
      NumNone(s.calls, Drops(o));
    }
  }

  // ---------------------------------------------------------------- theorems

  /** Over every interleaving of walks, binds, unbinds and deletions: the count of every object is
      its bindings and the references of callers and calls, and nothing that any of these refers
      to has been deleted. */
  lemma {:induction false} Conservation(r: Run)
    requires Valid(r)
    ensures Inv(Now(r)) && Safe(Now(r))
  {
    match r {
      case Boot(root, isDir, n) => BootOk(root, isDir, n);
      case After(q, a) =>
        Conservation(q);
        StepKeeps(Now(q), a);
    }
    InvSafe(Now(r));
  }

  ghost predicate Quiet(s: State) { forall t | 0 <= t < |s.calls| :: s.calls[t] == IDLE }

  /** With no call under way this is the invariant of the namespace whose calls run alone: in
      particular no binding of a deleted container is left. */
  lemma {:induction false} QuietIsNamespace(r: Run)
    requires Valid(r) && Quiet(Now(r))
    ensures var s := Now(r); ObjectNamespace.Inv(s.refs, s.bind, s.held, s.isDir, s.root)
  {
    Conservation(r);
    var s := Now(r);
    forall o: Obj ensures CountOk(s.refs, s.bind, s.held, o) {
      if o != NULL {
        assert Law(s, o);
        NumNone(s.calls, IsAt(o));
        NumNone(s.calls, Drops(o));
      } else {
        assert EdgesTo(s.bind, o) == {};
      }
    }
    forall e | e in s.bind ensures EdgeOk(s.refs, s.bind, s.isDir, e) { assert EdgeFits(s, e); }
  }

  lemma CanGoOn(s: State, t: nat, name: string)
    requires Inv(s) && Safe(s) && t < |s.calls|
    ensures s.calls[t].drop != NULL ==> Enabled(s, Drop(t))
    ensures s.calls[t].drop == NULL && s.calls[t].dying != [] ==> Enabled(s, Emptied(t)) || exists e :: Enabled(s, Shed(t, e))
    ensures Free(s, t) && s.calls[t].at != NULL && s.isDir(s.calls[t].at) ==> Enabled(s, Look(t, name)) && Enabled(s, Unbind(t, name))
  {
    var c := s.calls[t];
    if c.drop == NULL && c.dying != [] && !Enabled(s, Emptied(t)) {
      var e :| e in s.bind && e.dir == c.dying[|c.dying| - 1];
      assert Enabled(s, Shed(t, e));
    }
  }

  /** A call under way can always take its next step: its lookups meet living objects, what it
      drops is there to drop, and a deleted container has a binding left or is done with. */
  lemma {:induction false} NeverStuck(r: Run, t: nat, name: string)
    requires Valid(r) && t < |Now(r).calls|
    ensures var s := Now(r); var c := s.calls[t];
            && (c.drop != NULL ==> Enabled(s, Drop(t)))
            && (c.drop == NULL && c.dying != [] ==> Enabled(s, Emptied(t)) || exists e :: Enabled(s, Shed(t, e)))
            && (Free(s, t) && c.at != NULL && s.isDir(c.at) ==> Enabled(s, Look(t, name)) && Enabled(s, Unbind(t, name)))
  {
    Conservation(r);
    CanGoOn(Now(r), t, name);
  }

  // ---------------------------------------------------------------- what a step binds

  /** The step binds o at e: the walk stands at the container, the name fits and is not taken. */
  ghost predicate Binds(s: State, a: Action, e: Edge, o: Obj)
    requires Enabled(s, a)
  {
    a.Bind? && a.memory && a.o == o && e == Edge(s.calls[a.t].at, a.name) && |e.name| < Container.NAME_LIMIT && e !in s.bind
  }

  /** The step takes away what e binds: it is unbound, or its container is being emptied. */
  ghost predicate Unbinds(s: State, a: Action, e: Edge)
    requires Enabled(s, a)
  {
    (a.Unbind? && e == Edge(s.calls[a.t].at, a.name)) || (a.Shed? && e == a.e)
  }

  lemma BindingMade(s: State, a: Action)
    requires Enabled(s, a) && a.Bind?
    ensures var e := Edge(s.calls[a.t].at, a.name);
            Apply(s, a).bind == if Binds(s, a, e, a.o) then s.bind[e := a.o] else s.bind
  {
  }

  lemma BindingGone(s: State, a: Action)
    requires Enabled(s, a) && (a.Unbind? || a.Shed?)
    ensures Apply(s, a).bind == s.bind - {if a.Unbind? then Edge(s.calls[a.t].at, a.name) else a.e}
  {
  }

  lemma BindingsStay(s: State, a: Action)
    requires Enabled(s, a) && !a.Bind? && !a.Unbind? && !a.Shed?
    ensures Apply(s, a).bind == s.bind
  {
  }

  /** A name is bound to an object after a step exactly if the step bound it or it was bound to
      it before and the step did not take it away. */
  lemma BoundAfter(s: State, a: Action, e: Edge, o: Obj)
    requires Enabled(s, a)
    ensures var s' := Apply(s, a);
            (e in s'.bind && s'.bind[e] == o) <==> Binds(s, a, e, o) || (e in s.bind && s.bind[e] == o && !Unbinds(s, a, e))
  {
    if a.Bind? {
      BindingMade(s, a);
    } else if a.Unbind? || a.Shed? {
      BindingGone(s, a);
    } else {
      BindingsStay(s, a);
    }
  }

  /** One component of a walk leads to the object bound to it, whose count it takes first, or
      nowhere, and the container it came from is dropped next; what is unbound is dropped. */
  lemma WalkAfter(r: Run, a: Action, o: Obj)
    requires Valid(After(r, a)) && (a.Look? || a.Unbind?)
    ensures var s, s' := Now(r), Now(After(r, a)); var e := Edge(s.calls[a.t].at, a.name);
            && (a.Look? ==> s'.calls[a.t].drop == e.dir && (s'.calls[a.t].at == o != NULL <==> e in s.bind && s.bind[e] == o))
            && (a.Look? && e in s.bind && s.bind[e] == o ==> RefsOf(s'.refs, o) == RefsOf(s.refs, o) + 1)
            && (a.Unbind? && e in s.bind ==> s'.calls[a.t].drop == s.bind[e] && s'.calls[a.t].at == e.dir)
  {
    Conservation(r);
  }
}
