/** The binding list of a container, archs/kom/common/kcontainer.cpp: a singly linked list
    that behaves as a map from names to objects. */
module Container {
  import opened Common

  type Obj = Ptr
  const NAME_LIMIT := 64

  datatype Binding = Binding(name: string, obj: Obj)
  datatype Error = OK | INVALID_TYPE | NO_MEMORY | COLLISION | NOT_FOUND

  /** Entry i is linked to the next one and agrees with the map. */
  ghost predicate NodeOk(next: map<Ptr, Ptr>, body: map<Ptr, Binding>, s: seq<Ptr>, m: map<string, Obj>, i: int) {
    && LinkOk(next, s, i) && s[i] in body
    && body[s[i]].name in m && m[body[s[i]].name] == body[s[i]].obj != NULL
  }

  predicate NameAt(body: map<Ptr, Binding>, s: seq<Ptr>, i: int, n: string) {
    0 <= i < |s| && s[i] in body && body[s[i]].name == n
  }

  ghost predicate HasName(body: map<Ptr, Binding>, s: seq<Ptr>, n: string) {
    exists i :: NameAt(body, s, i, n)
  }

  /** A well-formed list, without a repeated name, whose entries are those of the map. */
  ghost predicate ListOk(next: map<Ptr, Ptr>, body: map<Ptr, Binding>, head: Ptr, s: seq<Ptr>, m: map<string, Obj>) {
    && head == First(s) && Distinct(s)
    && (forall i | 0 <= i < |s| :: NodeOk(next, body, s, m, i))
    && (forall n | n in m :: HasName(body, s, n))
    && (forall i, j, n | NameAt(body, s, i, n) && NameAt(body, s, j, n) :: i == j)
  }

  lemma PushKeeps(next: map<Ptr, Ptr>, body: map<Ptr, Binding>, head: Ptr, s: seq<Ptr>, m: map<string, Obj>, p: Ptr, b: Binding)
    requires ListOk(next, body, head, s, m) && p != NULL && p !in s && b.name !in m && b.obj != NULL
    ensures ListOk(next[p := head], body[p := b], p, [p] + s, m[b.name := b.obj])
  {
    var next', body', t, m' := next[p := head], body[p := b], [p] + s, m[b.name := b.obj];
    forall i | 0 <= i < |t| ensures NodeOk(next', body', t, m', i) {
      if i > 0 { assert NodeOk(next, body, s, m, i - 1) && t[i] == s[i - 1]; }
    }
    forall n | n in m' ensures HasName(body', t, n) {
      if n == b.name {
        assert NameAt(body', t, 0, n);
      } else {
        var i :| NameAt(body, s, i, n);
        assert NameAt(body', t, i + 1, n);
      }
    }
    forall i, j, n | NameAt(body', t, i, n) && NameAt(body', t, j, n) ensures i == j {
      OldName(next, body, s, m, p, b, i, n);
      OldName(next, body, s, m, p, b, j, n);
    }
    forall i, j | 0 <= i < j < |t| ensures t[i] != t[j] { assert j > 0 && t[j] == s[j - 1]; }
  }

  lemma OldName(next: map<Ptr, Ptr>, body: map<Ptr, Binding>, s: seq<Ptr>, m: map<string, Obj>, p: Ptr, b: Binding, i: int, n: string)
    requires p !in s && b.name !in m && NameAt(body[p := b], [p] + s, i, n) && forall k | 0 <= k < |s| :: NodeOk(next, body, s, m, k)
    ensures if i == 0 then n == b.name else n != b.name && NameAt(body, s, i - 1, n)
  {
    if i > 0 { assert NodeOk(next, body, s, m, i - 1); }
  }

  lemma RemoveNode(next: map<Ptr, Ptr>, body: map<Ptr, Binding>, head: Ptr, s: seq<Ptr>, m: map<string, Obj>, i: nat, k: nat)
    requires ListOk(next, body, head, s, m) && i < |s| && k < |s| - 1 && s[i] in next && s[i] in body && next[s[i]] == After(s, i)
    ensures NodeOk(if i > 0 then next[s[i - 1] := next[s[i]]] else next, body, Without(s, i), m - {body[s[i]].name}, k)
  {
    var k' := if k < i then k else k + 1;
    assert NodeOk(next, body, s, m, k') && NodeOk(next, body, s, m, i) && Without(s, i)[k] == s[k'];
    assert NameAt(body, s, k', body[s[k']].name) && NameAt(body, s, i, body[s[i]].name);
    assert i > 0 && s[k'] == s[i - 1] ==> k' == i - 1;
  }

  lemma RemoveKeeps(next: map<Ptr, Ptr>, body: map<Ptr, Binding>, head: Ptr, s: seq<Ptr>, m: map<string, Obj>, i: nat)
    requires ListOk(next, body, head, s, m) && i < |s|
    ensures s[i] in body && s[i] in next && next[s[i]] == After(s, i) && (i > 0 ==> s[i - 1] != NULL && s[i - 1] in next)
    ensures body[s[i]].name in m && m[body[s[i]].name] == body[s[i]].obj
    ensures ListOk(if i > 0 then next[s[i - 1] := next[s[i]]] else next, body, if i > 0 then head else next[s[i]], Without(s, i), m - {body[s[i]].name})
  {
    assert NodeOk(next, body, s, m, i) && (i > 0 ==> NodeOk(next, body, s, m, i - 1));
    var next' := if i > 0 then next[s[i - 1] := next[s[i]]] else next;
    var t, m' := Without(s, i), m - {body[s[i]].name};
    forall k | 0 <= k < |t| ensures NodeOk(next', body, t, m', k) { RemoveNode(next, body, head, s, m, i, k); }
    forall n | n in m' ensures HasName(body, t, n) {
      var k :| NameAt(body, s, k, n);
      assert NameAt(body, t, if k < i then k else k - 1, n);
    }
    forall j, k, n | NameAt(body, t, j, n) && NameAt(body, t, k, n) ensures j == k {
      assert NameAt(body, s, if j < i then j else j + 1, n) && NameAt(body, s, if k < i then k else k + 1, n);
    }
    forall a, b | 0 <= a < b < |t| ensures t[a] != t[b] {
      assert s[if a < i then a else a + 1] != s[if b < i then b else b + 1];
    }
  }

  // ---------------------------------------------------------------- what a container does to its names

  /** bind: the name is added exactly if it is new, short enough and there is memory; errors
      in this order. */
  ghost predicate Binds(m: map<string, Obj>, name: Option<string>, obj: Obj, memory: bool, e: Error, m': map<string, Obj>) {
    && e != NOT_FOUND && (e == INVALID_TYPE <==> name.None? || obj == NULL)
    && (e != INVALID_TYPE ==>
          && (e == COLLISION <==> |name.value| < NAME_LIMIT && name.value in m)
          && (e == NO_MEMORY <==> |name.value| >= NAME_LIMIT || (name.value !in m && !memory)))
    && m' == if e == OK then m[name.value := obj] else m
  }

  /** unbind: the name is removed if it is there, and its object returned. */
  ghost predicate Unbinds(m: map<string, Obj>, name: Option<string>, e: Error, target: Obj, m': map<string, Obj>) {
    && e == (if name.None? then INVALID_TYPE else if name.value in m then OK else NOT_FOUND)
    && (e == OK ==> target == m[name.value] && m' == m - {name.value})
    && (e != OK ==> m' == m && target == NULL)
  }

  /** lookup. */
  function Looked(m: map<string, Obj>, name: Option<string>): Obj {
    if name.Some? && name.value in m then m[name.value] else NULL
  }

  class BindingList {
    var head: Ptr
    var next: map<Ptr, Ptr>
    var body: map<Ptr, Binding>
    ghost var nodes: seq<Ptr>
    ghost var entries: map<string, Obj>

    ghost predicate Valid()
      reads this
    {
      ListOk(next, body, head, nodes, entries)
    }

    constructor ()
      ensures Valid() && entries == map[]
    {
      head, next, body, nodes, entries := NULL, map[], map[], [], map[];
    }

    /** The search loop that bind, unbind and lookup share. */
    method Find(name: string) returns (prev: Ptr, curr: Ptr, ghost i: nat)
      requires Valid()
      ensures curr != NULL <==> name in entries
      ensures curr != NULL ==> i < |nodes| && nodes[i] == curr && curr in body && body[curr].name == name
      ensures curr != NULL ==> entries[name] == body[curr].obj && prev == if i > 0 then nodes[i - 1] else NULL
    {
      prev, curr, i := NULL, head, 0;
      while curr != NULL
        invariant i <= |nodes| && curr == (if i < |nodes| then nodes[i] else NULL)
        invariant prev == if i > 0 then nodes[i - 1] else NULL
        invariant forall k | 0 <= k < i :: !NameAt(body, nodes, k, name)
        decreases |nodes| - i
      {
        assert NodeOk(next, body, nodes, entries, i);
        if body[curr].name == name {
          return;
        }
        prev := curr;
        curr := next[curr];
        i := i + 1;
        assert i < |nodes| ==> NodeOk(next, body, nodes, entries, i);
      }
      assert i < |nodes| ==> NodeOk(next, body, nodes, entries, i);
      if name in entries {
        assert HasName(body, nodes, name);
      }
    }

    /** lookup. */
    method Lookup(name: Option<string>) returns (o: Obj)
      requires Valid()
      ensures o == Looked(entries, name)
    {
      if name.None? {
        return NULL;
      }
      var prev, curr;
      ghost var i;
      prev, curr, i := Find(name.value);
      if curr == NULL {
        return NULL;
      }
      o := body[curr].obj;
    }

    /** bind: node is the new list node, null if there is no memory. */
    method Bind(name: Option<string>, obj: Obj, node: Ptr) returns (e: Error)
      requires Valid() && node !in nodes
      modifies this
      ensures Valid() && Binds(old(entries), name, obj, node != NULL, e, entries)
    {
      if name.None? || obj == NULL {
        return INVALID_TYPE;
      }
      if |name.value| >= NAME_LIMIT {
        return NO_MEMORY;
      }
      var prev, curr;
      ghost var i;
      prev, curr, i := Find(name.value);
      if curr != NULL {
        return COLLISION;
      }
      if node == NULL {
        return NO_MEMORY;
      }
      PushKeeps(next, body, head, nodes, entries, node, Binding(name.value, obj));
      body := body[node := Binding(name.value, obj)];
      next := next[node := head];
      head := node;
      nodes, entries := [node] + nodes, entries[name.value := obj];
      e := OK;
    }

    /** unbind: the object whose reference the caller then drops. */
    method Unbind(name: Option<string>) returns (e: Error, target: Obj)
      requires Valid()
      modifies this
      ensures Valid() && Unbinds(old(entries), name, e, target, entries)
    {
      if name.None? {
        return INVALID_TYPE, NULL;
      }
      var prev, curr;
      ghost var i;
      prev, curr, i := Find(name.value);
      if curr == NULL {
        return NOT_FOUND, NULL;
      }
      RemoveKeeps(next, body, head, nodes, entries, i);
      if prev != NULL {
        next := next[prev := next[curr]];
      } else {
        head := next[curr];
      }
      target := body[curr].obj;
      nodes, entries := Without(nodes, i), entries - {name.value};
      e := OK;
    }
  }
}
