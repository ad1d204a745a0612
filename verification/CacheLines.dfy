/** The lines of system/disk/cache.cpp: hashing into sets, the ways of a set, the victim, and
    what it means for them to agree with the disks. */
module CacheLines {
  import opened Bits

  const SETS := 256
  const WAYS := 4
  const BLOCK_SIZE := 512
  const MAX_STAMP := 0xFFFF_FFFF_FFFF_FFFF

  type Block = seq<nat>
  datatype Key = Key(dev: nat, lba: nat)
  type Disk = map<Key, Block>

  /** What a direct read returns. */
  function Content(disk: Disk, k: Key): Block { if k in disk then disk[k] else [] }

  // ---------------------------------------------------------------- hash

  /** One FNV-1a round on 32 bits. */
  function Mix(h: nat, b: nat): nat { Xor(h, b, 32) * 16777619 % 0x1_0000_0000 }

  /** n bytes of v, low ones first. */
  function MixBytes(h: nat, v: nat, n: nat): nat
    decreases n
  {
    if n == 0 then h else MixBytes(Mix(h, v % 256), v / 256, n - 1)
  }

  function SetOf(k: Key): (s: nat)
    ensures s < SETS
  {
    AndAtMost(MixBytes(MixBytes(2166136261, k.dev, 8), k.lba, 8), SETS - 1, 32);
    And(MixBytes(MixBytes(2166136261, k.dev, 8), k.lba, 8), SETS - 1, 32)
  }

  method Hash(k: Key) returns (s: nat)
    ensures s == SetOf(k) && s < SETS
  {
    var h, v := 2166136261, k.dev;
    for i := 0 to 8
      invariant MixBytes(h, v, 8 - i) == MixBytes(2166136261, k.dev, 8)
    {
      h, v := Mix(h, v % 256), v / 256;
    }
    ghost var h1 := h;
    v := k.lba;
    for i := 0 to 8
      invariant MixBytes(h, v, 8 - i) == MixBytes(h1, k.lba, 8)
    {
      h, v := Mix(h, v % 256), v / 256;
    }
    AndAtMost(h, SETS - 1, 32);
    s := And(h, SETS - 1, 32);
  }

  // ---------------------------------------------------------------- lines

  datatype Line = Line(valid: bool, key: Key, data: Block, stamp: nat)
  type Ways = seq<Line>

  predicate Hit(l: Line, k: Key) { l.valid && l.key == k }

  /** A valid line is in its set and holds the block, unless the block is one of `loose`. */
  ghost predicate LineOk(l: Line, s: int, disk: Disk, loose: iset<Key>) {
    l.valid ==> SetOf(l.key) == s && (l.key in loose || l.data == Content(disk, l.key))
  }

  ghost predicate WaysOk(ws: Ways, s: int, disk: Disk, loose: iset<Key>) {
    && |ws| == WAYS
    && (forall w | 0 <= w < WAYS :: LineOk(ws[w], s, disk, loose))
    && (forall v, w | 0 <= v < w < WAYS && ws[v].valid && ws[w].valid :: ws[v].key != ws[w].key)
  }

  ghost predicate Misses(ws: Ways, k: Key) {
    forall w | 0 <= w < |ws| :: !Hit(ws[w], k)
  }

  function WithWay(sets: seq<Ways>, i: nat, w: nat, l: Line): seq<Ways>
    requires i < |sets| && w < |sets[i]|
  {
    sets[i := sets[i][w := l]]
  }

  /** w is the way the search loop stops at. */
  predicate FirstHit(ws: Ways, k: Key, w: nat) {
    w <= |ws| && (w < |ws| ==> Hit(ws[w], k)) && forall v | 0 <= v < w :: !Hit(ws[v], k)
  }

  /** The search loop: the way that holds the block, if one does. */
  method Find(ws: Ways, k: Key) returns (w: nat)
    ensures FirstHit(ws, k, w) && (w == |ws| <==> Misses(ws, k))
  {
    w := 0;
    while w < |ws|
      invariant w <= |ws| && forall v | 0 <= v < w :: !Hit(ws[v], k)
    {
      if ws[w].valid && ws[w].key == k {
        return;
      }
      w := w + 1;
    }
  }

  /** The victim loop: the first invalid way, else the least recently used one. */
  method Victim(ws: Ways) returns (v: nat)
    requires |ws| == WAYS && forall w | 0 <= w < WAYS :: ws[w].stamp <= MAX_STAMP
    ensures IsVictim(ws, v)
  {
    v := 0;
    var oldest := MAX_STAMP;
    for w := 0 to WAYS
      invariant forall u | 0 <= u < w :: ws[u].valid && oldest <= ws[u].stamp
      invariant if w == 0 then v == 0 && oldest == MAX_STAMP else v < w && oldest == ws[v].stamp
      invariant forall u | 0 <= u < v :: oldest < ws[u].stamp
    {
      if !ws[w].valid {
        v := w;
        return;
      }
      if ws[w].stamp < oldest {
        oldest := ws[w].stamp;
        v := w;
      }
    }
  }

  /** The way that the victim loop picks. */
  predicate IsVictim(ws: Ways, v: nat) {
    && v < |ws|
    && (!ws[v].valid ==> forall w | 0 <= w < v :: ws[w].valid)
    && (ws[v].valid ==> forall w | 0 <= w < |ws| :: ws[w].valid && ws[v].stamp <= ws[w].stamp && (w < v ==> ws[v].stamp < ws[w].stamp))
  }

  /** A set after a block went through it at `now`: way v holds it; v held it before, or no way
      did and v was invalid or, every way being valid, not used later than any other. The other
      ways are as they were. */
  ghost predicate TakenAt(ws: Ways, ws': Ways, k: Key, now: nat, v: int) {
    && |ws'| == |ws| && 0 <= v < |ws| && Hit(ws'[v], k) && ws'[v].stamp == now
    && (forall w | 0 <= w < |ws| && w != v :: ws'[w] == ws[w])
    && (Hit(ws[v], k) ||
        (Misses(ws, k) && (!ws[v].valid || forall w | 0 <= w < |ws| :: ws[w].valid && ws[v].stamp <= ws[w].stamp)))
  }

  ghost predicate Taken(ws: Ways, ws': Ways, k: Key, now: nat) { exists v :: TakenAt(ws, ws', k, now, v) }

  /** Another way than v holds the block. */
  ghost predicate HitBeside(ws: Ways, v: nat, k: Key) {
    exists w :: 0 <= w < |ws| && w != v && Hit(ws[w], k)
  }

  /** Filling a way keeps the set right, whatever was there, if and only if no other way holds
      the block and the data is still what the disk has, or the block is loose. */
  lemma FillExactly(ws: Ways, s: int, disk: Disk, loose: iset<Key>, v: nat, k: Key, data: Block, stamp: nat)
    requires WaysOk(ws, s, disk, loose) && v < WAYS && SetOf(k) == s
    ensures WaysOk(ws[v := Line(true, k, data, stamp)], s, disk, loose) <==> !HitBeside(ws, v, k) && (k in loose || data == Content(disk, k))
  {
    var ws' := ws[v := Line(true, k, data, stamp)];
    assert WaysOk(ws', s, disk, loose) ==> LineOk(ws'[v], s, disk, loose);
    if HitBeside(ws, v, k) {
      var w :| 0 <= w < WAYS && w != v && Hit(ws[w], k);
      assert ws'[w].key == ws'[v].key && ws'[w].valid && ws'[v].valid;
    } else if k in loose || data == Content(disk, k) {
      forall u | 0 <= u < WAYS ensures LineOk(ws'[u], s, disk, loose) { assert LineOk(ws[u], s, disk, loose); }
      forall u, w | 0 <= u < w < WAYS && ws'[u].valid && ws'[w].valid ensures ws'[u].key != ws'[w].key {
        assert (u != v ==> !Hit(ws[u], k)) && (w != v ==> !Hit(ws[w], k));
      }
    }
  }

  /** Storing data in the line that holds the block makes up for the block being loose if and
      only if it is what the disk has. */
  lemma TouchExactly(ws: Ways, s: int, disk: Disk, loose: iset<Key>, v: nat, k: Key, data: Block, stamp: nat)
    requires WaysOk(ws, s, disk, loose + iset{k}) && v < WAYS && Hit(ws[v], k)
    ensures WaysOk(ws[v := ws[v].(data := data, stamp := stamp)], s, disk, loose) <==> k in loose || data == Content(disk, k)
  {
    var ws' := ws[v := ws[v].(data := data, stamp := stamp)];
    assert WaysOk(ws', s, disk, loose) ==> LineOk(ws'[v], s, disk, loose);
    if k in loose || data == Content(disk, k) {
      forall u | 0 <= u < WAYS ensures LineOk(ws'[u], s, disk, loose) {
        assert LineOk(ws[u], s, disk, loose + iset{k}) && LineOk(ws[v], s, disk, loose + iset{k});
        assert u != v && ws[u].valid ==> ws[u].key != k;
      }
    }
  }

  /** Some line of a block in `changed` differs from the disk, and the block is not loose. */
  ghost predicate Stale(ws: Ways, disk: Disk, loose: iset<Key>, changed: iset<Key>) {
    exists w :: 0 <= w < |ws| && ws[w].valid && ws[w].key in changed - loose && ws[w].data != Content(disk, ws[w].key)
  }

  ghost predicate SameBut(disk: Disk, disk': Disk, changed: iset<Key>) {
    forall k :: k !in changed ==> Content(disk', k) == Content(disk, k)
  }

  /** A change of some blocks makes them loose, and keeps the set right if and only if no line
      is stale. */
  lemma DiskChange(ws: Ways, s: int, disk: Disk, disk': Disk, loose: iset<Key>, changed: iset<Key>)
    requires WaysOk(ws, s, disk, loose) && SameBut(disk, disk', changed)
    ensures WaysOk(ws, s, disk', loose + changed) && (WaysOk(ws, s, disk', loose) <==> !Stale(ws, disk', loose, changed))
  {
    forall w | 0 <= w < WAYS ensures LineOk(ws[w], s, disk', loose + changed) { assert LineOk(ws[w], s, disk, loose); }
    if Stale(ws, disk', loose, changed) {
      var w :| 0 <= w < |ws| && ws[w].valid && ws[w].key in changed - loose && ws[w].data != Content(disk', ws[w].key);
      assert !LineOk(ws[w], s, disk', loose);
    } else {
      forall w | 0 <= w < WAYS ensures LineOk(ws[w], s, disk', loose) {
        assert LineOk(ws[w], s, disk, loose);
        assert ws[w].valid && ws[w].key in changed - loose ==> ws[w].data == Content(disk', ws[w].key);
      }
    }
  }

  /** No line of these blocks is valid. */
  ghost predicate NoneOf(ws: Ways, keys: iset<Key>) {
    forall w | 0 <= w < |ws| :: ws[w].valid ==> ws[w].key !in keys
  }

  /** Blocks that are not cached need not be loose. */
  lemma Tighten(ws: Ways, s: int, disk: Disk, loose: iset<Key>, keys: iset<Key>)
    requires WaysOk(ws, s, disk, loose + keys) && NoneOf(ws, keys)
    ensures WaysOk(ws, s, disk, loose)
  {
    forall w | 0 <= w < WAYS ensures LineOk(ws[w], s, disk, loose) { assert LineOk(ws[w], s, disk, loose + keys); }
  }

  /** Only a block's own set can hold it. */
  lemma OtherSetMisses(ws: Ways, s: int, disk: Disk, loose: iset<Key>, k: Key)
    requires WaysOk(ws, s, disk, loose) && SetOf(k) != s
    ensures NoneOf(ws, iset{k}) && Misses(ws, k)
  {
    forall w | 0 <= w < |ws| ensures ws[w].valid ==> ws[w].key != k { assert LineOk(ws[w], s, disk, loose); }
  }

  /** Lines were only marked invalid. */
  ghost predicate Shrunk(ws: Ways, ws': Ways) {
    |ws'| == |ws| && forall w | 0 <= w < |ws| :: ws'[w] == ws[w] || ws'[w] == ws[w].(valid := false)
  }

  lemma ShrunkOk(ws: Ways, ws': Ways, s: int, disk: Disk, loose: iset<Key>)
    requires WaysOk(ws, s, disk, loose) && Shrunk(ws, ws')
    ensures WaysOk(ws', s, disk, loose)
  {
    forall w | 0 <= w < WAYS ensures LineOk(ws'[w], s, disk, loose) { assert LineOk(ws[w], s, disk, loose); }
  }

  /** Lines for which f holds are marked invalid. */
  function Cleared(ws: Ways, f: Line -> bool): (r: Ways)
    ensures |r| == |ws| && forall w | 0 <= w < |ws| :: r[w] == if ws[w].valid && f(ws[w]) then ws[w].(valid := false) else ws[w]
  {
    seq(|ws|, w requires 0 <= w < |ws| => if ws[w].valid && f(ws[w]) then ws[w].(valid := false) else ws[w])
  }

  /** The loops that mark lines invalid. */
  method ClearLines(ws: Ways, f: Line -> bool) returns (r: Ways)
    requires |ws| == WAYS
    ensures r == Cleared(ws, f) && Shrunk(ws, r)
  {
    r := ws;
    for w := 0 to WAYS
      invariant |r| == WAYS && forall u | 0 <= u < WAYS :: r[u] == if u < w && ws[u].valid && f(ws[u]) then ws[u].(valid := false) else ws[u]
    {
      if r[w].valid && f(r[w]) {
        r := r[w := r[w].(valid := false)];
      }
    }
  }

  // ---------------------------------------------------------------- disks

  function Blocks(disk: Disk, dev: nat, lba: nat, n: nat): seq<Block> {
    seq(n, i requires i >= 0 => Content(disk, Key(dev, lba + i)))
  }

  /** A direct read after a write of the same blocks gives them back. */
  lemma StoredRead(disk: Disk, dev: nat, lba: nat, data: seq<Block>)
    ensures Blocks(Stored(disk, dev, lba, data), dev, lba, |data|) == data
  {
    forall i | 0 <= i < |data| ensures Content(Stored(disk, dev, lba, data), Key(dev, lba + i)) == data[i] {
      StoredIs(disk, dev, lba, data, Key(dev, lba + i));
    }
  }

  lemma BlocksMore(disk: Disk, dev: nat, lba: nat, n: nat)
    ensures Blocks(disk, dev, lba, n + 1) == Blocks(disk, dev, lba, n) + [Content(disk, Key(dev, lba + n))]
  {
  }

  /** The disk after a write of consecutive blocks. */
  function Stored(disk: Disk, dev: nat, lba: nat, data: seq<Block>): Disk {
    if data == [] then disk
    else Stored(disk, dev, lba, data[..|data| - 1])[Key(dev, lba + |data| - 1) := data[|data| - 1]]
  }

  lemma StoredOne(disk: Disk, dev: nat, lba: nat, data: seq<Block>)
    requires |data| <= 1
    ensures Stored(disk, dev, lba, data) == if data == [] then disk else disk[Key(dev, lba) := data[0]]
  {
    if data != [] { assert data[..0] == [] && Stored(disk, dev, lba, []) == disk; }
  }

  predicate InRun(k: Key, dev: nat, lba: nat, n: nat) { k.dev == dev && lba <= k.lba < lba + n }

  /** n consecutive blocks of a device. */
  ghost function RunOf(dev: nat, lba: nat, n: nat): iset<Key> { iset k: Key | InRun(k, dev, lba, n) }

  lemma {:induction false} StoredIs(disk: Disk, dev: nat, lba: nat, data: seq<Block>, k: Key)
    ensures Content(Stored(disk, dev, lba, data), k) == if InRun(k, dev, lba, |data|) then data[k.lba - lba] else Content(disk, k)
  {
    if data != [] { StoredIs(disk, dev, lba, data[..|data| - 1], k); }
  }

  lemma StoredBut(disk: Disk, dev: nat, lba: nat, data: seq<Block>)
    ensures SameBut(disk, Stored(disk, dev, lba, data), RunOf(dev, lba, |data|))
  {
    forall k | k !in RunOf(dev, lba, |data|) ensures Content(Stored(disk, dev, lba, data), k) == Content(disk, k) { StoredIs(disk, dev, lba, data, k); }
  }
}
