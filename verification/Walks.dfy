/** What ons_resolve computes on a graph of containers, and what adding or removing one
    binding does to it. archs/kom/common/ons.cpp. */
module Walks {
  import opened Common
  import opened Paths

  type Obj = Ptr

  /** A name in a container. */
  datatype Edge = Edge(dir: Obj, name: string)
  type Bindings = map<Edge, Obj>

  /** The token loop of ons_resolve from a container on. */
  function Walk(b: Bindings, isDir: Obj -> bool, cur: Obj, s: string): Obj
    decreases |s|
  {
    if s == "" then cur
    else
      var i := IndexOf(s, '/');
      if i == 0 then Walk(b, isDir, cur, s[1..])
      else if Edge(cur, s[..i]) !in b then NULL
      else
        var next := b[Edge(cur, s[..i])];
        if i == |s| then next
        else if !isDir(next) then NULL
        else Walk(b, isDir, next, s[i + 1..])
  }

  /** ons_resolve on a path. */
  function Resolved(b: Bindings, isDir: Obj -> bool, root: Obj, path: string): Obj {
    var p := Convert(path);
    if p == "" || p[0] != '/' then NULL else Walk(b, isDir, root, p[1..])
  }

  ghost predicate NoNull(b: Bindings) { forall e | e in b :: b[e] != NULL }

  ghost predicate Sub(b: Bindings, b': Bindings) { forall e | e in b :: e in b' && b'[e] == b[e] }

  /** With fewer bindings a walk finds the same object or none. */
  lemma {:induction false} WalkSub(b: Bindings, b': Bindings, isDir: Obj -> bool, cur: Obj, s: string)
    requires Sub(b, b') && NoNull(b')
    ensures Walk(b, isDir, cur, s) == NULL || Walk(b, isDir, cur, s) == Walk(b', isDir, cur, s)
    decreases |s|
  {
    if s != "" {
      var i := IndexOf(s, '/');
      if i == 0 {
        WalkSub(b, b', isDir, cur, s[1..]);
      } else if Edge(cur, s[..i]) in b && i < |s| {
        WalkSub(b, b', isDir, b[Edge(cur, s[..i])], s[i + 1..]);
      }
    }
  }

  /** One more lookup. */
  function Down(b: Bindings, isDir: Obj -> bool, c: Obj, name: string): Obj {
    if c != NULL && isDir(c) && Edge(c, name) in b then b[Edge(c, name)] else NULL
  }

  /** The first component of a path, with something after it. */
  lemma WalkFirst(b: Bindings, isDir: Obj -> bool, cur: Obj, n: string, rest: string)
    requires n != "" && '/' !in n
    ensures Walk(b, isDir, cur, n + "/" + rest) ==
              if Edge(cur, n) in b && isDir(b[Edge(cur, n)]) then Walk(b, isDir, b[Edge(cur, n)], rest) else NULL
  {
    var s := n + "/" + rest;
    assert s == n + ("/" + rest);
    IndexOfConcat(n, "/" + rest, '/');
    assert IndexOf("/" + rest, '/') == 0;
    assert s[..|n|] == n && s[|n| + 1..] == rest;
  }

  lemma WalkSlash(b: Bindings, isDir: Obj -> bool, cur: Obj, s: string)
    requires s != "" && s[0] == '/'
    ensures Walk(b, isDir, cur, s) == Walk(b, isDir, cur, s[1..])
  {
    assert IndexOf(s, '/') == 0;
  }

  lemma CutAtSlash(a: string, i: nat, name: string)
    requires i < |a| && a[i] == '/'
    ensures a[..i] + "/" + a[i + 1..] == a && a[..i] + "/" + (a[i + 1..] + "/" + name) == a + "/" + name
  {
  }

  /** The last component of a path is looked up in what the rest resolves to. */
  lemma {:induction false} WalkLast(b: Bindings, isDir: Obj -> bool, cur: Obj, a: string, name: string)
    requires NoNull(b) && cur != NULL && name != "" && '/' !in name && a != "" && a[|a| - 1] != '/'
    ensures Walk(b, isDir, cur, a + "/" + name) == Down(b, isDir, Walk(b, isDir, cur, a), name)
    decreases |a|
  {
    var i := IndexOf(a, '/');
    if i == 0 {
      assert (a + "/" + name)[1..] == a[1..] + "/" + name;
      WalkSlash(b, isDir, cur, a);
      WalkSlash(b, isDir, cur, a + "/" + name);
      WalkLast(b, isDir, cur, a[1..], name);
    } else if i < |a| {
      var n, rest := a[..i], a[i + 1..];
      CutAtSlash(a, i, name);
      WalkFirst(b, isDir, cur, n, rest);
      WalkFirst(b, isDir, cur, n, rest + "/" + name);
      if Edge(cur, n) in b { WalkLast(b, isDir, b[Edge(cur, n)], rest, name); }
    } else {
      WalkFirst(b, isDir, cur, a, name);
      WalkName(b, isDir, cur, a);
      WalkName(b, isDir, if Edge(cur, a) in b then b[Edge(cur, a)] else NULL, name);
    }
  }

  lemma WalkName(b: Bindings, isDir: Obj -> bool, cur: Obj, name: string)
    requires name != "" && '/' !in name
    ensures Walk(b, isDir, cur, name) == if Edge(cur, name) in b then b[Edge(cur, name)] else NULL
  {
    assert IndexOf(name, '/') == |name| && name[..|name|] == name;
  }

  /** A container, or nothing. */
  function DirOnly(isDir: Obj -> bool, c: Obj): Obj { if c != NULL && isDir(c) then c else NULL }

  /** Looking up names one after the other, each in what the one before gave. */
  function Descend(b: Bindings, isDir: Obj -> bool, c: Obj, names: seq<string>): Obj
    decreases |names|
  {
    if names == [] then c else Descend(b, isDir, Down(b, isDir, c, names[0]), names[1..])
  }

  lemma {:induction false} DescendNull(b: Bindings, isDir: Obj -> bool, names: seq<string>)
    ensures Descend(b, isDir, NULL, names) == NULL
  {
    if names != [] { DescendNull(b, isDir, names[1..]); }
  }

  /** That is what the walk does; a path that ends in a slash names a container or nothing. */
  lemma {:induction false} WalkMeans(b: Bindings, isDir: Obj -> bool, cur: Obj, s: string)
    requires NoNull(b) && cur != NULL && isDir(cur) && '\\' !in s
    ensures var o := Descend(b, isDir, cur, Components(s));
            Walk(b, isDir, cur, s) == if s != "" && s[|s| - 1] == '/' then DirOnly(isDir, o) else o
    decreases |s|
  {
    if s != "" {
      var i := IndexOf(s, '/');
      if i == 0 {
        WalkMeans(b, isDir, cur, s[1..]);
      } else {
        RunIs(s, i);
        var name, rest := s[..i], s[i..];
        var next := Down(b, isDir, cur, name);
        assert Components(s) == [name] + Components(rest);
        if next == NULL {
          DescendNull(b, isDir, Components(rest));
        } else if i < |s| {
          assert rest[1..] == s[i + 1..];
          if isDir(next) {
            WalkMeans(b, isDir, next, s[i + 1..]);
          } else {
            NotADir(b, isDir, next, Components(s[i + 1..]));
            NoNames(s[i + 1..]);
          }
        } else {
          assert rest == "";
        }
      }
    }
  }

  lemma {:induction false} NoNames(s: string)
    ensures Components(s) == [] && s != "" ==> IsSep(s[|s| - 1])
    decreases |s|
  {
    if s != "" && IsSep(s[0]) { NoNames(s[1..]); }
  }

  lemma NotADir(b: Bindings, isDir: Obj -> bool, c: Obj, names: seq<string>)
    requires !isDir(c)
    ensures Descend(b, isDir, c, names) == if names == [] then c else NULL
  {
    if names != [] { DescendNull(b, isDir, names[1..]); }
  }

  /** So a path names what its components, looked up one after the other from the root, lead to;
      with a slash at its end only if that is a container. */
  lemma ResolveMeans(b: Bindings, isDir: Obj -> bool, root: Obj, path: string)
    requires NoNull(b) && root != NULL && isDir(root)
    ensures var p := Convert(path); var o := Descend(b, isDir, root, Components(p));
            Resolved(b, isDir, root, path) ==
              if p == "" || p[0] != '/' then NULL else if p[|p| - 1] == '/' then DirOnly(isDir, o) else o
  {
    ConvertIsNormal(path);
    var p := Convert(path);
    if p[0] == '/' {
      assert forall i | 0 <= i < |p[1..]| :: p[1..][i] == p[i + 1];
      WalkMeans(b, isDir, root, p[1..]);
    }
  }

  /** In particular a slash at the end changes nothing for a container. */
  lemma TrailingSlash(b: Bindings, isDir: Obj -> bool, root: Obj, s: string)
    requires NoNull(b) && root != NULL && isDir(root) && '\\' !in s
    ensures Walk(b, isDir, root, s + "/") == DirOnly(isDir, Walk(b, isDir, root, s))
  {
    WalkMeans(b, isDir, root, s);
    WalkMeans(b, isDir, root, s + "/");
    SlashAdds(s);
  }

  lemma {:induction false} SlashAdds(s: string)
    ensures Components(s + "/") == Components(s)
    decreases |s|
  {
    var t := s + "/";
    if s == "" {
    } else if IsSep(s[0]) {
      assert t[1..] == s[1..] + "/";
      SlashAdds(s[1..]);
    } else {
      var n := Run(s);
      RunIs(t, n);
      assert t[..n] == s[..n] && t[n..] == s[n..] + "/";
      SlashAdds(s[n..]);
    }
  }

  /** strrchr. */
  function LastSlash(p: string): (k: nat)
    requires '/' in p
    ensures k < |p| && p[k] == '/' && '/' !in p[k + 1..]
    decreases |p|
  {
    if p[|p| - 1] == '/' then |p| - 1
    else
      assert p == p[..|p| - 1] + [p[|p| - 1]];
      var k := LastSlash(p[..|p| - 1]);
      assert p[k + 1..] == p[..|p| - 1][k + 1..] + [p[|p| - 1]];
      k
  }

  /** ons_bind and ons_unbind split a normal path into its parent and its last name. */
  function ParentOf(p: string): string
    requires '/' in p
  {
    if LastSlash(p) == 0 then "/" else p[..LastSlash(p)]
  }

  function NameOf(p: string): (r: string)
    requires '/' in p
    ensures '/' !in r
  {
    p[LastSlash(p) + 1..]
  }

  lemma ParentNormal(p: string)
    requires Normal(p) && p[0] == '/' && '/' in p
    ensures Normal(ParentOf(p)) && ParentOf(p)[0] == '/'
    ensures LastSlash(p) > 0 ==> LastSlash(p) > 1 && p[LastSlash(p) - 1] != '/'
  {
    var k, q := LastSlash(p), ParentOf(p);
    assert k > 0 ==> !DoubleAt(p, k - 1);
    assert k > 0 ==> !DoubleAt(p, 0);
    forall i ensures !DoubleAt(q, i) { assert !DoubleAt(p, i); }
  }

  /** The walk of a normal path, split at its last slash. */
  lemma WalkSplit(b: Bindings, isDir: Obj -> bool, root: Obj, p: string)
    requires NoNull(b) && root != NULL && isDir(root) && Normal(p) && p[0] == '/' && '/' in p && NameOf(p) != ""
    ensures ParentOf(p) != "" && Walk(b, isDir, root, p[1..]) == Down(b, isDir, Walk(b, isDir, root, ParentOf(p)[1..]), NameOf(p))
  {
    ParentNormal(p);
    var k, name := LastSlash(p), NameOf(p);
    if k == 0 {
      assert p[1..] == name && ParentOf(p)[1..] == "";
      WalkName(b, isDir, root, name);
    } else {
      var a := p[1..k];
      assert p[1..] == a + "/" + name;
      assert p[..k][1..] == a;
      WalkLast(b, isDir, root, a, name);
    }
  }

  /** A path resolves to its name looked up in its resolved parent. */
  lemma ResolveSplit(b: Bindings, isDir: Obj -> bool, root: Obj, path: string)
    requires NoNull(b) && root != NULL && isDir(root)
    requires var p := Convert(path); p != "" && p[0] == '/' && '/' in p && NameOf(p) != ""
    ensures var p := Convert(path);
            Resolved(b, isDir, root, path) == Down(b, isDir, Resolved(b, isDir, root, ParentOf(p)), NameOf(p))
  {
    ConvertIsNormal(path);
    var p := Convert(path);
    ParentNormal(p);
    NormalIsFixed(ParentOf(p));
    WalkSplit(b, isDir, root, p);
  }

  /** After a binding is added under a path, the path resolves to it; */
  lemma BindThenResolve(b: Bindings, isDir: Obj -> bool, root: Obj, path: string, obj: Obj)
    requires NoNull(b) && root != NULL && isDir(root) && obj != NULL
    requires var p := Convert(path); p != "" && p[0] == '/' && '/' in p && NameOf(p) != ""
    requires var p := Convert(path); var c := Resolved(b, isDir, root, ParentOf(p));
             c != NULL && isDir(c) && Edge(c, NameOf(p)) !in b
    ensures var p := Convert(path); var c := Resolved(b, isDir, root, ParentOf(p));
            Resolved(b[Edge(c, NameOf(p)) := obj], isDir, root, path) == obj
  {
    var p := Convert(path);
    var c := Resolved(b, isDir, root, ParentOf(p));
    var b' := b[Edge(c, NameOf(p)) := obj];
    ResolveSplit(b', isDir, root, path);
    ConvertIsNormal(path);
    ParentNormal(p);
    WalkSub(b, b', isDir, root, Convert(ParentOf(p))[1..]);
  }

  /** and once the binding is gone, whatever else went with it, the path resolves to nothing. */
  lemma UnbindThenResolve(b: Bindings, b': Bindings, isDir: Obj -> bool, root: Obj, path: string)
    requires NoNull(b) && root != NULL && isDir(root) && Sub(b', b)
    requires var p := Convert(path); p != "" && p[0] == '/' && '/' in p && NameOf(p) != ""
    requires var p := Convert(path); Edge(Resolved(b, isDir, root, ParentOf(p)), NameOf(p)) !in b'
    ensures Resolved(b', isDir, root, path) == NULL
  {
    var p := Convert(path);
    ConvertIsNormal(path);
    ParentNormal(p);
    ResolveSplit(b', isDir, root, path);
    WalkSub(b', b, isDir, root, Convert(ParentOf(p))[1..]);
  }
}
