/** The object namespace: ons_resolve, ons_bind and ons_unbind of archs/kom/common/ons.cpp on
    containers of archs/kom/common/kcontainer.cpp, with the reference counts they change and
    the cascade of deletions a last unref starts. Calls run alone here; NamespaceProtocol has
    their steps. */
module ObjectNamespace {
  import opened Common
  import Container
  import opened Paths
  import opened Walks

  datatype Code = OK | INVALID_ARG | NOT_FOUND | NOT_CONTAINER | COLLISION

  // ---------------------------------------------------------------- counting bindings

  ghost function EdgesTo(b: Bindings, o: Obj): set<Edge> { set e | e in b && b[e] == o }

  /** How many bindings name an object. */
  ghost function InDegree(b: Bindings, o: Obj): nat { |EdgesTo(b, o)| }

  lemma InDegreeAdd(b: Bindings, e: Edge, v: Obj, o: Obj)
    requires e !in b
    ensures InDegree(b[e := v], o) == InDegree(b, o) + if o == v then 1 else 0
  {
    assert EdgesTo(b[e := v], o) == EdgesTo(b, o) + if o == v then {e} else {};
  }

  lemma InDegreeRemove(b: Bindings, e: Edge, o: Obj)
    requires e in b
    ensures InDegree(b - {e}, o) == InDegree(b, o) - if o == b[e] then 1 else 0
  {
    assert EdgesTo(b, o) == EdgesTo(b - {e}, o) + if o == b[e] then {e} else {};
  }

  // ---------------------------------------------------------------- containers

  /** The names bound in one container, as its binding list has them. */
  ghost function InDir(b: Bindings, c: Obj): map<string, Obj> { map e | e in b && e.dir == c :: e.name := b[e] }

  lemma InDirHas(b: Bindings, c: Obj, name: string)
    ensures name in InDir(b, c) <==> Edge(c, name) in b
    ensures name in InDir(b, c) ==> InDir(b, c)[name] == b[Edge(c, name)]
  {
  }

  lemma InDirAdd(b: Bindings, c: Obj, name: string, v: Obj, d: Obj)
    ensures InDir(b[Edge(c, name) := v], d) == if d == c then InDir(b, c)[name := v] else InDir(b, d)
  {
    var m, m' := InDir(b, d), InDir(b[Edge(c, name) := v], d);
    assert forall n :: n in m <==> Edge(d, n) in b;
    assert forall n :: n in m' <==> Edge(d, n) in b[Edge(c, name) := v];
  }

  /** Deleting containers removes their bindings and no others. */
  ghost predicate Survive(b: Bindings, b': Bindings, refs: map<Obj, nat>) {
    Sub(b', b) && forall e | e in b :: e in b' <==> e.dir in refs
  }

  /** bind on the graph of all containers. */
  predicate BindsEdge(b: Bindings, c: Obj, name: string, obj: Obj, memory: bool, e: Container.Error, b': Bindings) {
    && e == (if |name| >= Container.NAME_LIMIT then Container.NO_MEMORY else if Edge(c, name) in b then Container.COLLISION
             else if !memory then Container.NO_MEMORY else Container.OK)
    && b' == if e == Container.OK then b[Edge(c, name) := obj] else b
  }

  /** It is what the binding list of the container does, and leaves the others alone. */
  lemma BindsInDir(b: Bindings, c: Obj, name: string, obj: Obj, memory: bool, e: Container.Error, b': Bindings)
    requires BindsEdge(b, c, name, obj, memory, e, b') && obj != NULL
    ensures Container.Binds(InDir(b, c), Some(name), obj, memory, e, InDir(b', c))
    ensures forall d | d != c :: InDir(b', d) == InDir(b, d)
  {
    InDirHas(b, c, name);
    if e == Container.OK {
      InDirAdd(b, c, name, obj, c);
      forall d | d != c ensures InDir(b', d) == InDir(b, d) { InDirAdd(b, c, name, obj, d); }
    }
  }

  /** unbind on the graph: the binding goes, and with it the bindings of containers that are
      deleted. */
  ghost predicate UnbindsEdge(b: Bindings, c: Obj, name: string, e: Container.Error, target: Obj, b': Bindings, refs: map<Obj, nat>) {
    && e == (if Edge(c, name) in b then Container.OK else Container.NOT_FOUND)
    && (e == Container.OK ==> target == b[Edge(c, name)] && Survive(b - {Edge(c, name)}, b', refs))
    && (e != Container.OK ==> target == NULL && b' == b)
  }

  lemma UnbindsInDir(b: Bindings, c: Obj, name: string, e: Container.Error, target: Obj, b': Bindings, refs: map<Obj, nat>)
    requires UnbindsEdge(b, c, name, e, target, b', refs) && c in refs
    ensures Container.Unbinds(InDir(b, c), Some(name), e, target, InDir(b', c))
    ensures e == Container.OK ==> forall d | d in refs && d != c :: InDir(b', d) == InDir(b, d)
  {
    InDirHas(b, c, name);
    if e == Container.OK {
      forall d | d in refs ensures InDir(b', d) == if d == c then InDir(b, c) - {name} else InDir(b, d) {
        InDirRemoved(b, b', refs, c, name, d);
      }
    }
  }

  lemma InDirRemoved(b: Bindings, b': Bindings, refs: map<Obj, nat>, c: Obj, name: string, d: Obj)
    requires Survive(b - {Edge(c, name)}, b', refs) && d in refs
    ensures InDir(b', d) == if d == c then InDir(b, c) - {name} else InDir(b, d)
  {
    var m, m' := InDir(b, d), InDir(b', d);
    forall n ensures n in m' <==> n in m && (d == c ==> n != name) {
      InDirHas(b, d, n);
      InDirHas(b', d, n);
      assert Edge(d, n) in b - {Edge(c, name)} <==> n in m && (d == c ==> n != name);
    }
    forall n | n in m' ensures m'[n] == m[n] {
      InDirHas(b, d, n);
      InDirHas(b', d, n);
    }
  }

  /** lookup on the graph is lookup in the binding list. */
  lemma LooksInDir(b: Bindings, c: Obj, name: string)
    ensures Container.Looked(InDir(b, c), Some(name)) == if Edge(c, name) in b then b[Edge(c, name)] else NULL
  {
    InDirHas(b, c, name);
  }

  // ---------------------------------------------------------------- invariant

  type Refs = map<Obj, nat>

  ghost predicate EdgeOk(refs: Refs, b: Bindings, isDir: Obj -> bool, e: Edge) {
    e in b && e.dir in refs && isDir(e.dir) && b[e] in refs && |e.name| < Container.NAME_LIMIT
  }

  /** A count is the number of bindings plus the references callers hold. */
  ghost predicate CountOk(refs: Refs, b: Bindings, held: multiset<Obj>, o: Obj) {
    (if o in refs then refs[o] else 0) == InDegree(b, o) + held[o]
  }

  ghost predicate Counts(refs: Refs, b: Bindings, held: multiset<Obj>) {
    && NULL !in refs && (forall o: Obj :: CountOk(refs, b, held, o)) && (forall o | o in refs :: refs[o] > 0)
  }

  ghost predicate Inv(refs: Refs, b: Bindings, held: multiset<Obj>, isDir: Obj -> bool, root: Obj) {
    && root != NULL && isDir(root) && root in held
    && Counts(refs, b, held) && forall e | e in b :: EdgeOk(refs, b, isDir, e)
  }

  lemma HeldLives(refs: Refs, b: Bindings, held: multiset<Obj>, o: Obj)
    requires Counts(refs, b, held) && o in held
    ensures o in refs && o != NULL && refs[o] >= InDegree(b, o) + 1
  {
    assert CountOk(refs, b, held, o);
  }

  lemma NoNullBound(refs: Refs, b: Bindings, held: multiset<Obj>, isDir: Obj -> bool, root: Obj)
    requires Inv(refs, b, held, isDir, root)
    ensures NoNull(b)
  {
    forall e | e in b ensures b[e] != NULL { assert EdgeOk(refs, b, isDir, e); }
  }

  lemma AllSurvive(refs: Refs, b: Bindings, held: multiset<Obj>, isDir: Obj -> bool, root: Obj)
    requires Inv(refs, b, held, isDir, root)
    ensures Survive(b, b, refs)
  {
    forall e | e in b ensures e.dir in refs { assert EdgeOk(refs, b, isDir, e); }
  }

  /** One reference more or less, held by a caller. */
  lemma CountStep(refs: Refs, b: Bindings, held: multiset<Obj>, o: Obj, refs': Refs, held': multiset<Obj>)
    requires Counts(refs, b, held) && o in refs
    requires (refs' == refs[o := refs[o] + 1] && held' == held + multiset{o}) ||
             (o in held && refs[o] > 1 && refs' == refs[o := refs[o] - 1] && held' == held - multiset{o})
    ensures Counts(refs', b, held')
  {
    forall x: Obj ensures CountOk(refs', b, held', x) { assert CountOk(refs, b, held, x); }
  }

  /** A binding's reference becomes one the caller holds. */
  lemma Detach(refs: Refs, b: Bindings, held: multiset<Obj>, e: Edge)
    requires Counts(refs, b, held) && e in b
    ensures Counts(refs, b - {e}, held + multiset{b[e]})
  {
    forall x: Obj ensures CountOk(refs, b - {e}, held + multiset{b[e]}, x) {
      assert CountOk(refs, b, held, x);
      InDegreeRemove(b, e, x);
    }
  }

  /** And back. */
  lemma Attach(refs: Refs, b: Bindings, held: multiset<Obj>, e: Edge, v: Obj)
    requires Counts(refs, b, held) && e !in b && v in refs
    ensures Counts(refs[v := refs[v] + 1], b[e := v], held)
  {
    var refs', b' := refs[v := refs[v] + 1], b[e := v];
    forall x: Obj ensures CountOk(refs', b', held, x) {
      assert CountOk(refs, b, held, x);
      InDegreeAdd(b, e, v, x);
    }
  }

  /** Dropping an object whose last reference the caller held. */
  lemma DropLast(refs: Refs, b: Bindings, held: multiset<Obj>, o: Obj)
    requires Counts(refs, b, held) && o in held && o in refs && refs[o] == 1
    ensures Counts(refs - {o}, b, held - multiset{o}) && EdgesTo(b, o) == {}
  {
    assert CountOk(refs, b, held, o);
    forall x: Obj ensures CountOk(refs - {o}, b, held - multiset{o}, x) { assert CountOk(refs, b, held, x); }
  }

  function More(refs: Refs, o: Obj): Refs
    requires o in refs
  {
    refs[o := refs[o] + 1]
  }

  /** One reference on c gained, perhaps one on o, and the one on c given back. */
  lemma HandOver(refs0: Refs, held0: multiset<Obj>, c: Obj, o: Obj, refs: Refs, held: multiset<Obj>)
    requires c in refs0 && refs0[c] > 0 && (o != NULL ==> o in refs0)
    requires refs == (if o == NULL then More(refs0, c) else More(More(refs0, c), o))
    requires held == (if o == NULL then held0 + multiset{c} else held0 + multiset{c} + multiset{o})
    ensures c in refs && refs[c] > 1 && refs[c := refs[c] - 1] == if o == NULL then refs0 else More(refs0, o)
    ensures c in held && held - multiset{c} == if o == NULL then held0 else held0 + multiset{o}
  {
    var back := refs[c := refs[c] - 1];
    assert back.Keys == refs0.Keys;
  }

  // ---------------------------------------------------------------- the namespace

  class Namespace {
    const root: Obj
    const isDir: Obj -> bool
    var refs: Refs
    var bind: Bindings
    ghost var held: multiset<Obj>

    ghost predicate Ok()
      reads this
    {
      Inv(refs, bind, held, isDir, root)
    }

    /** An empty root container. */
    constructor (root: Obj, isDir: Obj -> bool)
      requires root != NULL && isDir(root)
      ensures Ok() && bind == map[] && this.root == root && this.isDir == isDir
    {
      this.root, this.isDir := root, isDir;
      refs, bind, held := map[root := 1], map[], multiset{root};
      new;
      forall o: Obj ensures CountOk(refs, bind, held, o) { assert EdgesTo(bind, o) == {}; }
    }

    /** A new object with its creator's reference. */
    method Create(o: Obj)
      requires Ok() && o != NULL && o !in refs
      modifies this`refs, this`held
      ensures Ok() && refs == old(refs)[o := 1] && held == old(held) + multiset{o}
    {
      assert CountOk(refs, bind, held, o);
      ghost var r, h := refs, held;
      refs, held := refs[o := 1], held + multiset{o};
      forall x: Obj ensures CountOk(refs, bind, held, x) { assert CountOk(r, bind, h, x); }
      forall e | e in bind ensures EdgeOk(refs, bind, isDir, e) { assert EdgeOk(r, bind, isDir, e); }
    }

    /** kobject_ref. */
    method Ref(o: Obj)
      requires Ok() && o in refs
      modifies this`refs, this`held
      ensures Ok() && refs == old(refs)[o := old(refs)[o] + 1] && held == old(held) + multiset{o}
    {
      CountStep(refs, bind, held, o, refs[o := refs[o] + 1], held + multiset{o});
      ghost var r := refs;
      refs, held := refs[o := refs[o] + 1], held + multiset{o};
      forall e | e in bind ensures EdgeOk(refs, bind, isDir, e) { assert EdgeOk(r, bind, isDir, e); }
    }

    /** kobject_unref when it is not the last reference. */
    method UnrefShared(o: Obj)
      requires Ok() && o in held && o in refs && refs[o] > 1 && root in held - multiset{o}
      modifies this`refs, this`held
      ensures Ok() && refs == old(refs)[o := old(refs)[o] - 1] && held == old(held) - multiset{o}
    {
      CountStep(refs, bind, held, o, refs[o := refs[o] - 1], held - multiset{o});
      ghost var r := refs;
      refs, held := refs[o := refs[o] - 1], held - multiset{o};
      forall e | e in bind ensures EdgeOk(refs, bind, isDir, e) { assert EdgeOk(r, bind, isDir, e); }
    }

    /** The destructor's loop over the bindings of a dead container: each becomes a reference
        still to be dropped. */
    method Empty(o: Obj) returns (children: seq<Obj>)
      requires root in held && Counts(refs, bind, held) && root != NULL && isDir(root)
      requires forall e | e in bind && e.dir != o :: EdgeOk(refs, bind, isDir, e)
      modifies this`bind, this`held
      ensures Ok() && Sub(bind, old(bind)) && held == old(held) + multiset(children)
      ensures forall e | e in old(bind) :: e in bind <==> e.dir != o
    {
      children := [];
      while exists e :: e in bind && e.dir == o
        invariant Counts(refs, bind, held) && Sub(bind, old(bind)) && held == old(held) + multiset(children)
        invariant forall e | e in old(bind) && e.dir != o :: e in bind
        invariant forall e | e in bind && e.dir != o :: EdgeOk(refs, bind, isDir, e)
        decreases |bind|
      {
        var e :| e in bind && e.dir == o;
        Detach(refs, bind, held, e);
        ghost var b := bind;
        children := children + [bind[e]];
        held := held + multiset{bind[e]};
        bind := bind - {e};
        assert b == bind[e := b[e]];
        forall x | x in bind && x.dir != o ensures EdgeOk(refs, bind, isDir, x) { assert EdgeOk(refs, b, isDir, x); }
      }
    }

    /** The object goes, and a container's bindings with it. */
    method Delete(o: Obj) returns (children: seq<Obj>)
      requires Ok() && o in held && o in refs && refs[o] == 1 && root in held - multiset{o}
      modifies this`refs, this`bind, this`held
      ensures Ok() && Sub(bind, old(bind)) && refs == old(refs) - {o} && held == old(held) - multiset{o} + multiset(children)
      ensures forall e | e in old(bind) :: e in bind <==> e.dir != o
    {
      DropLast(refs, bind, held, o);
      ghost var r := refs;
      refs, held := refs - {o}, held - multiset{o};
      forall e | e in bind && e.dir != o ensures EdgeOk(refs, bind, isDir, e) {
        assert EdgeOk(r, bind, isDir, e);
        assert bind[e] == o ==> e in EdgesTo(bind, o);
      }
      children := Empty(o);
    }

    /** kobject_unref: the last one deletes the object, and a container takes its own
        references to its children with it. */
    method Unref(o: Obj)
      requires Ok() && o in held && root in held - multiset{o}
      modifies this`refs, this`bind, this`held
      ensures Ok() && held == old(held) - multiset{o} && Survive(old(bind), bind, refs) && refs.Keys <= old(refs).Keys
      ensures o in old(refs) && (old(refs)[o] > 1 ==> refs == old(refs)[o := old(refs)[o] - 1] && bind == old(bind))
      decreases |refs|, 0
    {
      HeldLives(refs, bind, held, o);
      if refs[o] > 1 {
        UnrefShared(o);
        AllSurvive(refs, bind, held, isDir, root);
        return;
      }
      SubsetSmaller(refs - {o}, refs, o);
      var children := Delete(o);
      assert held - multiset(children) == old(held) - multiset{o};
      UnrefAll(children);
    }

    method UnrefAll(children: seq<Obj>)
      requires Ok() && multiset(children) <= held && root in held - multiset(children)
      modifies this`refs, this`bind, this`held
      ensures Ok() && held == old(held) - multiset(children) && Survive(old(bind), bind, refs) && refs.Keys <= old(refs).Keys
      decreases |refs|, 1 + |children|
    {
      if children == [] {
        AllSurvive(refs, bind, held, isDir, root);
        return;
      }
      assert children == [children[0]] + children[1..];
      assert multiset(children) == multiset{children[0]} + multiset(children[1..]);
      ghost var r := refs;
      Unref(children[0]);
      NotMore(refs, r);
      UnrefAll(children[1..]);
    }

    /** KContainer::lookup: the bound object with a reference for the caller. */
    method Lookup(c: Obj, name: string) returns (o: Obj)
      requires Ok() && c in refs && isDir(c)
      modifies this`refs, this`held
      ensures Ok() && o == if Edge(c, name) in bind then bind[Edge(c, name)] else NULL
      ensures if o == NULL then refs == old(refs) && held == old(held)
              else o in old(refs) && refs == old(refs)[o := old(refs)[o] + 1] && held == old(held) + multiset{o}
    {
      if Edge(c, name) !in bind {
        return NULL;
      }
      assert EdgeOk(refs, bind, isDir, Edge(c, name));
      o := bind[Edge(c, name)];
      Ref(o);
    }

    /** The counts are the given ones plus one reference held on o. */
    ghost predicate Extra(refs0: Refs, held0: multiset<Obj>, o: Obj)
      reads this
    {
      o != NULL && o in refs0 && refs == refs0[o := refs0[o] + 1] && held == held0 + multiset{o}
    }

    /** Giving that reference up again deletes nothing. */
    method Release(o: Obj, ghost refs0: Refs, ghost held0: multiset<Obj>)
      requires Ok() && Extra(refs0, held0, o) && refs0[o] > 0 && root in held0
      modifies this`refs, this`bind, this`held
      ensures Ok() && bind == old(bind) && refs == refs0 && held == held0
    {
      assert held - multiset{o} == held0;
      Unref(o);
    }

    /** One component of ons_resolve: the reference moves from the container to what is
        bound in it. */
    method Descend(c: Obj, name: string, ghost refs0: Refs, ghost held0: multiset<Obj>) returns (o: Obj)
      requires Ok() && Extra(refs0, held0, c) && refs0[c] > 0 && isDir(c) && root in held0
      modifies this`refs, this`bind, this`held
      ensures Ok() && bind == old(bind) && o == if Edge(c, name) in bind then bind[Edge(c, name)] else NULL
      ensures if o == NULL then refs == refs0 && held == held0 else Extra(refs0, held0, o)
    {
      o := Lookup(c, name);
      HandOver(refs0, held0, c, o, refs, held);
      Unref(c);
    }

    /** The token loop of ons_resolve. */
    method WalkFrom(s: string) returns (o: Obj)
      requires Ok()
      modifies this`refs, this`bind, this`held
      ensures Ok() && bind == old(bind) && o == Walk(bind, isDir, root, s)
      ensures if o == NULL then refs == old(refs) && held == old(held) else Extra(old(refs), old(held), o)
    {
      HeldLives(refs, bind, held, root);
      var current, token := root, s;
      ghost var refs0, held0 := refs, held;
      Ref(current);
      while token != ""
        invariant Ok() && bind == old(bind) && isDir(current) && Extra(refs0, held0, current) && refs0[current] > 0
        invariant Walk(bind, isDir, root, s) == Walk(bind, isDir, current, token)
        decreases |token|
      {
        var i := IndexOf(token, '/');
        if i == 0 {
          token := token[1..];
          continue;
        }
        o := Descend(current, token[..i], refs0, held0);
        if o == NULL || i == |token| {
          return;
        }
        if !isDir(o) {
          Release(o, refs0, held0);
          o := NULL;
          return;
        }
        current, token := o, token[i + 1..];
      }
      o := current;
    }

    /** ons_resolve: it returns what the path names, with one reference for the caller, and
        changes no other count. */
    method Resolve(path: Option<string>) returns (o: Obj)
      requires Ok()
      modifies this`refs, this`bind, this`held
      ensures Ok() && bind == old(bind) && o == if path.Some? then Resolved(bind, isDir, root, path.value) else NULL
      ensures if o == NULL then refs == old(refs) && held == old(held) else Extra(old(refs), old(held), o)
    {
      if path.None? {
        return NULL;
      }
      ConvertIsNormal(path.value);
      var p := ConvertPath(path.value);
      if p[0] != '/' {
        return NULL;
      }
      if |p| == 1 {
        assert p[1..] == "";
        HeldLives(refs, bind, held, root);
        Ref(root);
        return root;
      }
      o := WalkFrom(p[1..]);
    }

    /** KContainer::bind: what a binding list does, in one container. */
    method BindIn(c: Obj, name: string, obj: Obj, memory: bool) returns (e: Container.Error)
      requires Ok() && c in refs && isDir(c) && obj in refs
      modifies this`refs, this`bind
      ensures Ok() && BindsEdge(old(bind), c, name, obj, memory, e, bind)
      ensures refs == if e == Container.OK then old(refs)[obj := old(refs)[obj] + 1] else old(refs)
    {
      if |name| >= Container.NAME_LIMIT {
        return Container.NO_MEMORY;
      }
      if Edge(c, name) in bind {
        return Container.COLLISION;
      }
      if !memory {
        return Container.NO_MEMORY;
      }
      Attach(refs, bind, held, Edge(c, name), obj);
      ghost var r, b := refs, bind;
      bind := bind[Edge(c, name) := obj];
      refs := refs[obj := refs[obj] + 1];
      forall x | x in bind ensures EdgeOk(refs, bind, isDir, x) { assert x in b ==> EdgeOk(r, b, isDir, x); }
      e := Container.OK;
    }

    /** KContainer::unbind: what a binding list does, in a container that the caller holds; the
        object may go with it, and all that only it kept alive. */
    method UnbindIn(c: Obj, name: string) returns (e: Container.Error, target: Obj)
      requires Ok() && c in held
      modifies this`refs, this`bind, this`held
      ensures Ok() && held == old(held) && c in refs && UnbindsEdge(old(bind), c, name, e, target, bind, refs)
      ensures e != Container.OK ==> refs == old(refs)
    {
      HeldLives(refs, bind, held, c);
      if Edge(c, name) !in bind {
        return Container.NOT_FOUND, NULL;
      }
      target := bind[Edge(c, name)];
      Cut(Edge(c, name));
      HeldLives(refs, bind, held, c);
      e := Container.OK;
    }

    /** One binding goes, with its reference. */
    method Cut(e: Edge)
      requires Ok() && e in bind
      modifies this`refs, this`bind, this`held
      ensures Ok() && held == old(held) && Survive(old(bind) - {e}, bind, refs)
    {
      Detach(refs, bind, held, e);
      ghost var b := bind;
      var target := bind[e];
      held := held + multiset{target};
      bind := bind - {e};
      forall x | x in bind ensures EdgeOk(refs, bind, isDir, x) { assert EdgeOk(refs, b, isDir, x); }
      assert held - multiset{target} == old(held);
      Unref(target);
    }

    /** The parent container of a normal path whose last slash is at `last`, referenced; or why
        there is none. */
    method FindParent(p: string, last: nat) returns (code: Code, parent: Obj)
      requires Ok() && Normal(p) && p[0] == '/' && '/' in p && last == LastSlash(p)
      modifies this`refs, this`bind, this`held
      ensures Ok() && bind == old(bind) && code != COLLISION && code != INVALID_ARG
      ensures var c := Resolved(bind, isDir, root, ParentOf(p));
              && (code == NOT_FOUND <==> c == NULL) && (code == NOT_CONTAINER <==> c != NULL && !isDir(c)) && (code == OK ==> parent == c)
      ensures if code == OK then Extra(old(refs), old(held), parent) && old(refs)[parent] > 0 && isDir(parent)
              else refs == old(refs) && held == old(held)
    {
      ParentNormal(p);
      NormalIsFixed(ParentOf(p));
      ghost var refs0, held0 := refs, held;
      if last != 0 {
        parent := Resolve(Some(p[..last]));
        if parent == NULL {
          return NOT_FOUND, parent;
        }
        if !isDir(parent) {
          Release(parent, refs0, held0);
          return NOT_CONTAINER, parent;
        }
      } else {
        assert ParentOf(p)[1..] == "";
        HeldLives(refs, bind, held, root);
        parent := root;
        Ref(parent);
      }
      code := OK;
    }

    /** The common start of ons_bind and ons_unbind: the parent container, referenced, and
        the last name; or why there is none. */
    method Locate(path: Option<string>) returns (code: Code, parent: Obj, name: string)
      requires Ok()
      modifies this`refs, this`bind, this`held
      ensures Ok() && bind == old(bind) && code != COLLISION
      ensures code == INVALID_ARG <==> path.None? || !Splits(path.value)
      ensures code != INVALID_ARG ==>
          var p := Convert(path.value); var c := Resolved(bind, isDir, root, ParentOf(p));
          && (code == NOT_FOUND <==> c == NULL) && (code == NOT_CONTAINER <==> c != NULL && !isDir(c))
          && (code == OK ==> parent == c && name == NameOf(p))
      ensures if code == OK then Extra(old(refs), old(held), parent) && old(refs)[parent] > 0 && isDir(parent)
              else refs == old(refs) && held == old(held)
    {
      parent, name := NULL, "";
      if path.None? {
        return INVALID_ARG, parent, name;
      }
      ConvertIsNormal(path.value);
      var p := ConvertPath(path.value);
      if p[0] != '/' {
        return INVALID_ARG, parent, name;
      }
      assert '/' in p;
      var last := LastSlash(p);
      name := p[last + 1..];
      if name == "" {
        return INVALID_ARG, parent, name;
      }
      code, parent := FindParent(p, last);
    }

    /** The end of ons_bind: the binding, and the parent's reference given up. */
    method BindAndRelease(parent: Obj, name: string, obj: Obj, memory: bool, ghost refs0: Refs, ghost held0: multiset<Obj>) returns (ok: bool)
      requires Ok() && Extra(refs0, held0, parent) && refs0[parent] > 0 && isDir(parent) && root in held0 && obj in refs0
      modifies this`refs, this`bind, this`held
      ensures Ok() && held == held0 && (ok <==> |name| < Container.NAME_LIMIT && Edge(parent, name) !in old(bind) && memory)
      ensures if ok then bind == old(bind)[Edge(parent, name) := obj] && refs == refs0[obj := refs0[obj] + 1]
              else bind == old(bind) && refs == refs0
    {
      var e := BindIn(parent, name, obj, memory);
      ok := e == Container.OK;
      assert held - multiset{parent} == held0;
      Unref(parent);
    }

    /** ons_bind: it succeeds exactly if the parent is a container without that name, and from
        then on the path resolves to the object. */
    method Bind(path: Option<string>, obj: Obj, memory: bool) returns (code: Code)
      requires Ok() && (obj != NULL ==> obj in refs)
      modifies this`refs, this`bind, this`held
      ensures Ok() && held == old(held) && (code == OK <==> memory && CanBind(old(bind), isDir, root, path, obj))
      ensures code == OK ==>
          && path.Some? && obj in old(refs) && Resolved(bind, isDir, root, path.value) == obj
          && bind == old(bind)[Target(old(bind), isDir, root, path.value) := obj] && refs == old(refs)[obj := old(refs)[obj] + 1]
      ensures code != OK ==> bind == old(bind) && refs == old(refs)
    {
      if path.None? || obj == NULL {
        return INVALID_ARG;
      }
      NoNullBound(refs, bind, held, isDir, root);
      ghost var b, refs0, held0 := bind, refs, held;
      var parent, name;
      code, parent, name := Locate(path);
      if code != OK {
        return;
      }
      var ok := BindAndRelease(parent, name, obj, memory, refs0, held0);
      if ok {
        BindThenResolve(b, isDir, root, path.value, obj);
        return OK;
      }
      return COLLISION;
    }

    method UnbindAndRelease(parent: Obj, name: string, ghost refs0: Refs, ghost held0: multiset<Obj>) returns (ok: bool)
      requires Ok() && Extra(refs0, held0, parent) && refs0[parent] > 0 && root in held0
      modifies this`refs, this`bind, this`held
      ensures Ok() && held == held0 && (ok <==> Edge(parent, name) in old(bind))
      ensures if ok then Survive(old(bind) - {Edge(parent, name)}, bind, refs) else bind == old(bind) && refs == refs0
    {
      var e, target := UnbindIn(parent, name);
      ok := e == Container.OK;
      assert held - multiset{parent} == held0;
      Unref(parent);
    }

    /** ons_unbind: on success the path resolves to nothing from then on. */
    method Unbind(path: Option<string>) returns (code: Code)
      requires Ok()
      modifies this`refs, this`bind, this`held
      ensures Ok() && held == old(held)
      ensures code == OK ==> path.Some? && Resolved(bind, isDir, root, path.value) == NULL
      ensures code == OK ==> Splits(path.value) && Survive(old(bind) - {Target(old(bind), isDir, root, path.value)}, bind, refs)
      ensures code != OK ==> bind == old(bind) && refs == old(refs)
      ensures code == OK <==> path.Some? && Splits(path.value) && Resolved(old(bind), isDir, root, path.value) != NULL
    {
      NoNullBound(refs, bind, held, isDir, root);
      ghost var refs0, held0 := refs, held;
      var parent, name;
      code, parent, name := Locate(path);
      if code != OK {
        if code != INVALID_ARG { ResolveSplit(bind, isDir, root, path.value); }
        return;
      }
      ghost var b := bind;
      ResolveSplit(b, isDir, root, path.value);
      var ok := UnbindAndRelease(parent, name, refs0, held0);
      if ok {
        UnbindThenResolve(b, bind, isDir, root, path.value);
        return OK;
      }
      return NOT_FOUND;
    }

  }

  /** The path names something in a container: it is absolute and does not end in a slash. */
  predicate Splits(path: string) {
    var p := Convert(path); p != "" && p[0] == '/' && '/' in p && NameOf(p) != ""
  }

  /** The binding that a path stands for. */
  function Target(b: Bindings, isDir: Obj -> bool, root: Obj, path: string): Edge
    requires Splits(path)
  {
    var p := Convert(path);
    Edge(Resolved(b, isDir, root, ParentOf(p)), NameOf(p))
  }

  predicate CanBind(b: Bindings, isDir: Obj -> bool, root: Obj, path: Option<string>, obj: Obj) {
    && path.Some? && obj != NULL && Splits(path.value)
    && var e := Target(b, isDir, root, path.value);
       e.dir != NULL && isDir(e.dir) && |e.name| < Container.NAME_LIMIT && e !in b
  }

  lemma NotMore(a: Refs, b: Refs)
    requires a.Keys <= b.Keys
    ensures |a| <= |b|
  {
    var x, y := a.Keys, b.Keys;
    assert |a| == |x| && |b| == |y| && y == x + (y - x);
  }

  lemma SubsetSmaller(a: Refs, b: Refs, o: Obj)
    requires o in b && a.Keys <= b.Keys - {o}
    ensures |a| < |b|
  {
    var x, y := a.Keys, b.Keys;
    assert |a| == |x| && |b| == |y|;
    assert y == x + (y - x) && o in y - x;
    assert |y| == |x| + |y - x|;
  }
}
