/** The three doubly linked slab lists of SlabCache, archs/memory/kheap_slab.cpp: removing a
    slab from one and adding it to the front of another. */
module SlabLists {
  import opened Common

  type Addr = Ptr

  /** The list links of a slab header. */
  datatype Link = Link(next: Addr, prev: Addr)
  type Links = map<Addr, Link>

  datatype Kind = Partial | Full | Empty

  /** A slab is on one list, or in the hands of the thread that just created it. */
  datatype Place = On(kind: Kind) | InHand
  type Places = map<Addr, Place>

  datatype Heads = Heads(partial: Addr, full: Addr, empty: Addr) {
    function Get(k: Kind): Addr {
      match k case Partial => partial case Full => full case Empty => empty
    }
    function With(k: Kind, a: Addr): Heads {
      match k
      case Partial => this.(partial := a)
      case Full => this.(full := a)
      case Empty => this.(empty := a)
    }
  }

  datatype Seqs = Seqs(partial: seq<Addr>, full: seq<Addr>, empty: seq<Addr>) {
    function Get(k: Kind): seq<Addr> {
      match k case Partial => partial case Full => full case Empty => empty
    }
    function With(k: Kind, s: seq<Addr>): Seqs {
      match k
      case Partial => this.(partial := s)
      case Full => this.(full := s)
      case Empty => this.(empty := s)
    }
  }

  ghost predicate NodeOk(m: Links, pl: Places, s: seq<Addr>, i: int, k: Kind) {
    && 0 <= i < |s| && s[i] in m && s[i] != NULL && s[i] in pl && pl[s[i]] == On(k)
    && m[s[i]].next == After(s, i) && m[s[i]].prev == Before(s, i)
  }

  ghost predicate ListOk(m: Links, pl: Places, head: Addr, s: seq<Addr>, k: Kind) {
    head == First(s) && Distinct(s) && forall i | 0 <= i < |s| :: NodeOk(m, pl, s, i, k)
  }

  ghost predicate Placed(pl: Places, q: Seqs, a: Addr) {
    a in pl && (pl[a].On? ==> a in q.Get(pl[a].kind))
  }

  ghost predicate Linked(m: Links, pl: Places, h: Heads, q: Seqs) {
    && NULL !in m && pl.Keys == m.Keys
    && (forall k: Kind :: ListOk(m, pl, h.Get(k), q.Get(k), k))
    && (forall a | a in m :: Placed(pl, q, a))
  }

  // ---------------------------------------------------------------- removal

  /** The stores of removeSlabFromList except the head. */
  function Unlinked(m: Links, a: Addr): Links
    requires a in m && (m[a].prev != NULL ==> m[a].prev in m) && (m[a].next != NULL ==> m[a].next in m)
  {
    var m1 := if m[a].prev != NULL then m[m[a].prev := m[m[a].prev].(next := m[a].next)] else m;
    var m2 := if m1[a].next != NULL then m1[m1[a].next := m1[m1[a].next].(prev := m1[a].prev)] else m1;
    m2[a := m2[a].(prev := NULL, next := NULL)]
  }

  /** What the list looks like around entry i. */
  lemma AtEntry(m: Links, pl: Places, head: Addr, s: seq<Addr>, k: Kind, i: nat)
    requires ListOk(m, pl, head, s, k) && i < |s|
    ensures s[i] in m && s[i] != NULL && m[s[i]].prev == Before(s, i) && m[s[i]].next == After(s, i)
    ensures i > 0 ==> s[i - 1] in m && s[i - 1] != NULL && s[i - 1] != s[i]
    ensures i + 1 < |s| ==> s[i + 1] in m && s[i + 1] != NULL && s[i + 1] != s[i]
    ensures 0 < i && i + 1 < |s| ==> s[i - 1] != s[i + 1]
  {
    assert NodeOk(m, pl, s, i, k);
    assert i > 0 ==> NodeOk(m, pl, s, i - 1, k);
    assert i + 1 < |s| ==> NodeOk(m, pl, s, i + 1, k);
  }

  lemma UnlinkedFields(m: Links, pl: Places, head: Addr, s: seq<Addr>, k: Kind, i: nat, x: Addr)
    requires ListOk(m, pl, head, s, k) && i < |s| && s[i] in m && x in m
    requires (m[s[i]].prev != NULL ==> m[s[i]].prev in m) && (m[s[i]].next != NULL ==> m[s[i]].next in m)
    ensures var m' := Unlinked(m, s[i]);
            && m'.Keys == m.Keys
            && m'[x].next == (if x == s[i] then NULL else if i > 0 && x == s[i - 1] then After(s, i) else m[x].next)
            && m'[x].prev == (if x == s[i] then NULL else if i + 1 < |s| && x == s[i + 1] then Before(s, i) else m[x].prev)
  {
    AtEntry(m, pl, head, s, k, i);
  }

  /** The list keeps its other entries, linked around the removed one. */
  lemma UnlinkedList(m: Links, pl: Places, head: Addr, s: seq<Addr>, k: Kind, i: nat)
    requires ListOk(m, pl, head, s, k) && i < |s| && s[i] in m
    requires (m[s[i]].prev != NULL ==> m[s[i]].prev in m) && (m[s[i]].next != NULL ==> m[s[i]].next in m)
    ensures ListOk(Unlinked(m, s[i]), pl[s[i] := InHand], (if i == 0 then After(s, 0) else head), Without(s, i), k)
  {
    var m', pl', t := Unlinked(m, s[i]), pl[s[i] := InHand], Without(s, i);
    forall j | 0 <= j < |t| ensures NodeOk(m', pl', t, j, k) {
      var j' := if j < i then j else j + 1;
      assert NodeOk(m, pl, s, j', k) && t[j] == s[j'] && s[j'] != s[i];
      UnlinkedFields(m, pl, head, s, k, i, s[j']);
      assert i > 0 && s[j'] == s[i - 1] ==> j' == i - 1;
      assert i + 1 < |s| && s[j'] == s[i + 1] ==> j' == i + 1;
    }
    forall a, b | 0 <= a < b < |t| ensures t[a] != t[b] {
      assert s[if a < i then a else a + 1] != s[if b < i then b else b + 1];
    }
  }

  /** Another list does not notice. */
  lemma UnlinkedOther(m: Links, pl: Places, head: Addr, s: seq<Addr>, k: Kind, i: nat, head2: Addr, t: seq<Addr>, k2: Kind)
    requires ListOk(m, pl, head, s, k) && i < |s| && s[i] in m && ListOk(m, pl, head2, t, k2) && k2 != k
    requires (m[s[i]].prev != NULL ==> m[s[i]].prev in m) && (m[s[i]].next != NULL ==> m[s[i]].next in m)
    ensures ListOk(Unlinked(m, s[i]), pl[s[i] := InHand], head2, t, k2)
  {
    var m', pl' := Unlinked(m, s[i]), pl[s[i] := InHand];
    assert NodeOk(m, pl, s, i, k) && (i > 0 ==> NodeOk(m, pl, s, i - 1, k)) && (i + 1 < |s| ==> NodeOk(m, pl, s, i + 1, k));
    forall j | 0 <= j < |t| ensures NodeOk(m', pl', t, j, k2) {
      assert NodeOk(m, pl, t, j, k2);
      UnlinkedFields(m, pl, head, s, k, i, t[j]);
    }
  }

  /** removeSlabFromList: the slab leaves its list, nothing else changes place. */
  lemma RemoveKeeps(m: Links, pl: Places, h: Heads, q: Seqs, k: Kind, i: nat)
    requires Linked(m, pl, h, q) && i < |q.Get(k)|
    ensures var s := q.Get(k);
            && s[i] in m && s[i] != NULL && m[s[i]].prev == Before(s, i) && m[s[i]].next == After(s, i)
            && (m[s[i]].prev != NULL ==> m[s[i]].prev in m) && (m[s[i]].next != NULL ==> m[s[i]].next in m)
            && Linked(Unlinked(m, s[i]), pl[s[i] := InHand], h.With(k, if i == 0 then After(s, 0) else h.Get(k)), q.With(k, Without(s, i)))
            && m[s[i]].prev != s[i] && m[s[i]].next != s[i] && (m[s[i]].prev == m[s[i]].next ==> m[s[i]].prev == NULL)
            && Unlinked(m, s[i]).Keys == m.Keys
  {
    var s := q.Get(k);
    AtEntry(m, pl, h.Get(k), s, k, i);
    var m', pl' := Unlinked(m, s[i]), pl[s[i] := InHand];
    var h', q' := h.With(k, if i == 0 then After(s, 0) else h.Get(k)), q.With(k, Without(s, i));
    forall k2: Kind ensures ListOk(m', pl', h'.Get(k2), q'.Get(k2), k2) {
      if k2 == k { UnlinkedList(m, pl, h.Get(k), s, k, i); }
      else { UnlinkedOther(m, pl, h.Get(k), s, k, i, h.Get(k2), q.Get(k2), k2); }
    }
    UnlinkedFields(m, pl, h.Get(k), s, k, i, s[i]);
    forall a | a in m' ensures Placed(pl', q', a) {
      assert Placed(pl, q, a);
      if a != s[i] && pl[a] == On(k) { WithoutKeeps(s, i); }
    }
  }

  /** removeSlabFromList's stores. */
  method RemoveStores(m: Links, head: Addr, a: Addr) returns (m': Links, head': Addr)
    requires a in m && (m[a].prev != NULL ==> m[a].prev in m) && (m[a].next != NULL ==> m[a].next in m)
    requires m[a].prev != a && m[a].next != a && (m[a].prev == m[a].next ==> m[a].prev == NULL)
    ensures m' == Unlinked(m, a) && head' == if m[a].prev != NULL then head else m[a].next
  {
    m', head' := m, head;
    if m'[a].prev != NULL {
      m' := m'[m'[a].prev := m'[m'[a].prev].(next := m'[a].next)];
    } else {
      head' := m'[a].next;
    }
    if m'[a].next != NULL {
      m' := m'[m'[a].next := m'[m'[a].next].(prev := m'[a].prev)];
    }
    m' := m'[a := m'[a].(prev := NULL, next := NULL)];
  }

  // ---------------------------------------------------------------- addition

  /** The stores of addSlabToList except the head. */
  function Pushed(m: Links, head: Addr, a: Addr): Links
    requires a in m && (head != NULL ==> head in m)
  {
    var m1 := m[a := m[a].(next := head, prev := NULL)];
    if head != NULL then m1[head := m1[head].(prev := a)] else m1
  }

  /** addSlabToList: the slab becomes the front of the list. */
  lemma AddKeeps(m: Links, pl: Places, h: Heads, q: Seqs, k: Kind, a: Addr)
    requires Linked(m, pl, h, q) && a in m && pl[a] == InHand
    ensures h.Get(k) != NULL ==> h.Get(k) in m
    ensures Linked(Pushed(m, h.Get(k), a), pl[a := On(k)], h.With(k, a), q.With(k, [a] + q.Get(k)))
  {
    var s, head := q.Get(k), h.Get(k);
    assert s != [] ==> NodeOk(m, pl, s, 0, k);
    var m', pl', h', q' := Pushed(m, head, a), pl[a := On(k)], h.With(k, a), q.With(k, [a] + s);
    forall k2: Kind ensures ListOk(m', pl', h'.Get(k2), q'.Get(k2), k2) {
      if k2 == k { PushedList(m, pl, head, s, k, a); }
      else { PushedOther(m, pl, head, s, k, a, h.Get(k2), q.Get(k2), k2); }
    }
    forall b | b in m' ensures Placed(pl', q', b) {
      assert Placed(pl, q, b);
      assert b in s ==> b in [a] + s;
    }
  }

  lemma PushedList(m: Links, pl: Places, head: Addr, s: seq<Addr>, k: Kind, a: Addr)
    requires ListOk(m, pl, head, s, k) && a in m && a != NULL && a in pl && pl[a] == InHand && (head != NULL ==> head in m)
    ensures ListOk(Pushed(m, head, a), pl[a := On(k)], a, [a] + s, k)
  {
    var m', pl', t := Pushed(m, head, a), pl[a := On(k)], [a] + s;
    assert s != [] ==> NodeOk(m, pl, s, 0, k);
    forall j | 0 <= j < |t| ensures NodeOk(m', pl', t, j, k) {
      if j > 0 { assert NodeOk(m, pl, s, j - 1, k) && t[j] == s[j - 1] && (j > 1 ==> s[0] != s[j - 1]); }
    }
    forall i, j | 0 <= i < j < |t| ensures t[i] != t[j] {
      assert NodeOk(m, pl, s, j - 1, k) && (i > 0 ==> s[i - 1] != s[j - 1]);
    }
  }

  lemma PushedOther(m: Links, pl: Places, head: Addr, s: seq<Addr>, k: Kind, a: Addr, head2: Addr, t: seq<Addr>, k2: Kind)
    requires ListOk(m, pl, head, s, k) && a in m && a != NULL && a in pl && pl[a] == InHand && (head != NULL ==> head in m)
    requires ListOk(m, pl, head2, t, k2) && k2 != k
    ensures ListOk(Pushed(m, head, a), pl[a := On(k)], head2, t, k2)
  {
    var m', pl' := Pushed(m, head, a), pl[a := On(k)];
    assert s != [] ==> NodeOk(m, pl, s, 0, k);
    forall j | 0 <= j < |t| ensures NodeOk(m', pl', t, j, k2) { assert NodeOk(m, pl, t, j, k2); }
  }

  // ---------------------------------------------------------------- other stores

  /** A new slab starts in its creator's hands; a slab in hand can disappear. */
  lemma NewKeeps(m: Links, pl: Places, h: Heads, q: Seqs, a: Addr, x: Link)
    requires Linked(m, pl, h, q) && a !in m && a != NULL
    ensures Linked(m[a := x], pl[a := InHand], h, q)
  {
    var m', pl' := m[a := x], pl[a := InHand];
    forall k: Kind ensures ListOk(m', pl', h.Get(k), q.Get(k), k) {
      forall i | 0 <= i < |q.Get(k)| ensures NodeOk(m', pl', q.Get(k), i, k) { assert NodeOk(m, pl, q.Get(k), i, k); }
    }
    forall b | b in m ensures Placed(pl', q, b) { assert Placed(pl, q, b); }
  }

  lemma DropKeeps(m: Links, pl: Places, h: Heads, q: Seqs, a: Addr)
    requires Linked(m, pl, h, q) && a in m && pl[a] == InHand
    ensures Linked(m - {a}, pl - {a}, h, q)
  {
    var m', pl' := m - {a}, pl - {a};
    forall k: Kind ensures ListOk(m', pl', h.Get(k), q.Get(k), k) {
      forall i | 0 <= i < |q.Get(k)| ensures NodeOk(m', pl', q.Get(k), i, k) { assert NodeOk(m, pl, q.Get(k), i, k); }
    }
    forall b | b in m' ensures Placed(pl', q, b) { assert Placed(pl, q, b); }
  }

  // ---------------------------------------------------------------- the lists of a cache

  class SlabLists {
    var links: Links
    var h: Heads
    ghost var pl: Places
    ghost var q: Seqs

    ghost predicate Valid()
      reads this
    {
      Linked(links, pl, h, q)
    }

    constructor ()
      ensures Valid() && pl == map[] && q == Seqs([], [], [])
    {
      links, h, pl, q := map[], Heads(NULL, NULL, NULL), map[], Seqs([], [], []);
    }

    /** Where a slab is on its list. */
    lemma PositionOf(a: Addr) returns (i: nat)
      requires Valid() && a in pl && pl[a].On?
      ensures var s := q.Get(pl[a].kind); i < |s| && s[i] == a && (i > 0 <==> Before(s, i) != NULL)
    {
      assert Placed(pl, q, a);
      var s := q.Get(pl[a].kind);
      i :| i < |s| && s[i] == a;
      assert i > 0 ==> NodeOk(links, pl, s, i - 1, pl[a].kind);
    }

    /** The head of a list is its first entry, if any. */
    lemma HeadIs(k: Kind)
      requires Valid()
      ensures h.Get(k) == NULL <==> q.Get(k) == []
      ensures q.Get(k) != [] ==> h.Get(k) == q.Get(k)[0] && h.Get(k) in pl && pl[h.Get(k)] == On(k)
    {
      assert ListOk(links, pl, h.Get(k), q.Get(k), k);
      assert q.Get(k) != [] ==> NodeOk(links, pl, q.Get(k), 0, k);
    }

    /** A list holds exactly the slabs placed on it. */
    lemma EntriesPlaced(k: Kind)
      requires Valid()
      ensures forall a | a in pl :: pl[a] == On(k) <==> a in q.Get(k)
    {
      forall a | a in pl ensures pl[a] == On(k) <==> a in q.Get(k) {
        assert Placed(pl, q, a);
        if a in q.Get(k) {
          var i :| 0 <= i < |q.Get(k)| && q.Get(k)[i] == a;
          assert ListOk(links, pl, h.Get(k), q.Get(k), k) && NodeOk(links, pl, q.Get(k), i, k);
        }
      }
    }

    /** removeSlabFromList. */
    method Remove(a: Addr, k: Kind) returns (ghost i: nat)
      requires Valid() && a in pl && pl[a] == On(k)
      modifies this
      ensures Valid() && pl == old(pl)[a := InHand]
      ensures i < |old(q).Get(k)| && old(q).Get(k)[i] == a && q == old(q).With(k, Without(old(q).Get(k), i))
    {
      ghost var s := q.Get(k);
      i := PositionOf(a);
      RemoveKeeps(links, pl, h, q, k, i);
      var head;
      links, head := RemoveStores(links, h.Get(k), a);
      h := h.With(k, head);
      pl, q := pl[a := InHand], q.With(k, Without(s, i));
    }

    /** addSlabToList. */
    method Add(a: Addr, k: Kind)
      requires Valid() && a in pl && pl[a] == InHand
      modifies this
      ensures Valid() && pl == old(pl)[a := On(k)] && q == old(q).With(k, [a] + old(q).Get(k))
    {
      AddKeeps(links, pl, h, q, k, a);
      ghost var s := q.Get(k);
      var head := h.Get(k);
      links := links[a := links[a].(next := head, prev := NULL)];
      if head != NULL {
        links := links[head := links[head].(prev := a)];
      }
      h := h.With(k, a);
      pl, q := pl[a := On(k)], q.With(k, [a] + s);
    }

    /** A slab moves from one list to the front of another. */
    method Move(a: Addr, from: Kind, to: Kind)
      requires Valid() && a in pl && pl[a] == On(from)
      modifies this
      ensures Valid() && pl == old(pl)[a := On(to)]
    {
      ghost var i := Remove(a, from);
      Add(a, to);
    }

    /** createSlab's stores into the links of a new slab. */
    method Enter(a: Addr)
      requires Valid() && a !in pl && a != NULL
      modifies this`links, this`pl
      ensures Valid() && pl == old(pl)[a := InHand]
    {
      NewKeeps(links, pl, h, q, a, Link(NULL, NULL));
      links := links[a := Link(NULL, NULL)];
      pl := pl[a := InHand];
    }

    /** A slab in hand disappears with its pages. */
    method Drop(a: Addr)
      requires Valid() && a in pl && pl[a] == InHand
      modifies this`links, this`pl
      ensures Valid() && pl == old(pl) - {a}
    {
      DropKeeps(links, pl, h, q, a);
      links, pl := links - {a}, pl - {a};
    }
  }
}
