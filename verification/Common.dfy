/** What several modules share: optional values, and lists linked through pointers that end in
    null, each described by the sequence of its nodes. */
module Common {
  datatype Option<T> = None | Some(value: T)

  /** An address; null is 0. */
  type Ptr = nat
  const NULL: Ptr := 0

  function First(s: seq<Ptr>): Ptr { if s == [] then NULL else s[0] }
  function Last(s: seq<Ptr>): Ptr { if s == [] then NULL else s[|s| - 1] }
  function After(s: seq<Ptr>, i: int): Ptr { if 0 <= i < |s| - 1 then s[i + 1] else NULL }
  function Before(s: seq<Ptr>, i: int): Ptr { if 0 < i <= |s| then s[i - 1] else NULL }

  /** The list without entry i. */
  function Without(s: seq<Ptr>, i: nat): seq<Ptr>
    requires i < |s|
  {
    s[..i] + s[i + 1..]
  }

  ghost predicate Distinct(s: seq<Ptr>) {
    forall i, j | 0 <= i < j < |s| :: s[i] != s[j]
  }

  lemma WithoutKeeps(s: seq<Ptr>, i: nat)
    requires i < |s|
    ensures forall u | u in s && u != s[i] :: u in Without(s, i)
  {
    var s' := Without(s, i);
    forall u | u in s && u != s[i] ensures u in s' {
      var x :| 0 <= x < |s| && s[x] == u;
      assert u == if x < i then s'[x] else s'[x - 1];
    }
  }

  // ---------------------------------------------------------------- singly linked lists

  ghost predicate LinkOk(next: map<Ptr, Ptr>, s: seq<Ptr>, i: int) {
    0 <= i < |s| && s[i] != NULL && s[i] in next && next[s[i]] == After(s, i)
  }

  ghost predicate Chained(next: map<Ptr, Ptr>, head: Ptr, tail: Ptr, s: seq<Ptr>) {
    head == First(s) && tail == Last(s) && Distinct(s) && forall i | 0 <= i < |s| :: LinkOk(next, s, i)
  }

  lemma AppendKeeps(next: map<Ptr, Ptr>, head: Ptr, tail: Ptr, s: seq<Ptr>, t: Ptr)
    requires Chained(next, head, tail, s) && t != NULL && t !in s
    ensures tail != NULL <==> s != []
    ensures tail in next || s == []
    ensures var n1 := next[t := NULL]; var n2 := if s == [] then n1 else n1[tail := t];
            Chained(n2, (if s == [] then t else head), t, s + [t])
  {
    assert s != [] ==> LinkOk(next, s, |s| - 1);
    var n1 := next[t := NULL];
    var n2 := if s == [] then n1 else n1[tail := t];
    var u := s + [t];
    forall i | 0 <= i < |u| ensures LinkOk(n2, u, i) {
      if i < |s| { assert LinkOk(next, s, i) && s[i] != t && (i < |s| - 1 ==> s[i] != s[|s| - 1]); }
    }
  }

  lemma UnlinkKeeps(next: map<Ptr, Ptr>, head: Ptr, tail: Ptr, s: seq<Ptr>)
    requires Chained(next, head, tail, s) && s != []
    ensures head != NULL && head in next && next[head] == First(s[1..])
    ensures Chained(next[head := NULL], next[head], (if next[head] == NULL then NULL else tail), s[1..])
  {
    assert LinkOk(next, s, 0) && (|s| > 1 ==> LinkOk(next, s, 1));
    var n', u := next[head := NULL], s[1..];
    forall i | 0 <= i < |u| ensures LinkOk(n', u, i) { assert LinkOk(next, s, i + 1) && s[0] != s[i + 1]; }
  }
}
