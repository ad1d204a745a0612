/** The block cache under interleaving. readBlock and writeBlock hold a set's lock while they
    search, fill, update or invalidate it, and not while the device works, so each of these is
    a step of its own and every thread may be in the middle of one call. */
module CacheProtocol {
  import opened CacheLines

  /** Where a thread is: readBlock after a miss and after the device has answered, writeBlock
      before and after the device has taken the block, a bypassing write that has invalidated
      its first `done` blocks. */
  datatype Call =
    | Idle
    | Fetching(k: Key) | Fetched(k: Key, data: Block)
    | Writing(k: Key, data: Block) | Wrote(k: Key, data: Block)
    | Around(dev: nat, lba: nat, blocks: seq<Block>, done: nat)

  datatype State = State(sets: seq<Ways>, disk: Disk, calls: seq<Call>)

  // ---------------------------------------------------------------- steps

  datatype Action =
    | Look(t: nat, k: Key, w: nat, now: nat) | Fetch(t: nat, ok: bool) | Fill(t: nat, v: nat, now: nat)
    | BeginWrite(t: nat, k: Key, data: Block) | Store(t: nat) | Refuse(t: nat, after: Block) | Update(t: nat, w: nat, v: nat, now: nat)
    | BeginAround(t: nat, dev: nat, lba: nat, blocks: seq<Block>) | Uncache(t: nat) | StoreAround(t: nat, written: Disk)
    | Clear(i: nat, ws: Ways)

  ghost predicate Enabled(s: State, a: Action) {
    && |s.sets| == SETS
    && (!a.Clear? ==> a.t < |s.calls|)
    && match a
       case Look(t, k, w, _) => s.calls[t].Idle? && FirstHit(s.sets[SetOf(k)], k, w)
       case Fetch(t, _) => s.calls[t].Fetching?
       case Fill(t, v, _) => s.calls[t].Fetched? && IsVictim(s.sets[SetOf(s.calls[t].k)], v)
       case BeginWrite(t, _, _) => s.calls[t].Idle?
       case Store(t) => s.calls[t].Writing?
       case Refuse(t, _) => s.calls[t].Writing?
       case Update(t, w, v, _) =>
         && s.calls[t].Wrote?
         && var ws := s.sets[SetOf(s.calls[t].k)]; FirstHit(ws, s.calls[t].k, w) && (w == |ws| ==> IsVictim(ws, v))
       case BeginAround(t, _, _, _) => s.calls[t].Idle?
       case Uncache(t) => s.calls[t].Around? && s.calls[t].done < |s.calls[t].blocks|
       case StoreAround(t, written) =>
         && s.calls[t].Around? && s.calls[t].done == |s.calls[t].blocks|
         && SameBut(s.disk, written, RunOf(s.calls[t].dev, s.calls[t].lba, |s.calls[t].blocks|))
       case Clear(i, ws) => i < SETS && Shrunk(s.sets[i], ws)
  }

  /** The block a bypassing write invalidates next. */
  function NextBlock(c: Call): Key
    requires c.Around?
  {
    Key(c.dev, c.lba + c.done)
  }

  function OfBlock(k: Key): Line -> bool { (l: Line) => l.key == k }

  /** The locked section that ends writeBlock. */
  ghost function Updated(s: State, t: nat, w: nat, v: nat, now: nat): State
    requires Enabled(s, Update(t, w, v, now))
  {
    var c := s.calls[t];
    var i := SetOf(c.k);
    var sets := if w < |s.sets[i]| then WithWay(s.sets, i, w, s.sets[i][w].(data := c.data, stamp := now))
                else WithWay(s.sets, i, v, Line(true, c.k, c.data, now));
    s.(sets := sets, calls := s.calls[t := Idle])
  }

  ghost function Apply(s: State, a: Action): State
    requires Enabled(s, a)
  {
    match a
    case Look(t, k, w, now) =>
      var i := SetOf(k);
      if w < |s.sets[i]| then s.(sets := WithWay(s.sets, i, w, s.sets[i][w].(stamp := now)))
      else s.(calls := s.calls[t := Fetching(k)])
    case Fetch(t, ok) => s.(calls := s.calls[t := if ok then Fetched(s.calls[t].k, Content(s.disk, s.calls[t].k)) else Idle])
    case Fill(t, v, now) =>
      var c := s.calls[t];
      s.(sets := WithWay(s.sets, SetOf(c.k), v, Line(true, c.k, c.data, now)), calls := s.calls[t := Idle])
    case BeginWrite(t, k, data) => s.(calls := s.calls[t := Writing(k, data)])
    case Store(t) => s.(disk := s.disk[s.calls[t].k := s.calls[t].data], calls := s.calls[t := Wrote(s.calls[t].k, s.calls[t].data)])
    case Refuse(t, after) => s.(disk := s.disk[s.calls[t].k := after], calls := s.calls[t := Idle])
    case Update(t, w, v, now) => Updated(s, t, w, v, now)
    case BeginAround(t, dev, lba, blocks) => s.(calls := s.calls[t := Around(dev, lba, blocks, 0)])
    case Uncache(t) =>
      var c := s.calls[t];
      var i := SetOf(NextBlock(c));
      s.(sets := s.sets[i := Cleared(s.sets[i], OfBlock(NextBlock(c)))], calls := s.calls[t := c.(done := c.done + 1)])
    case StoreAround(t, written) => s.(disk := written, calls := s.calls[t := Idle])
    case Clear(i, ws) => s.(sets := s.sets[i := ws])
  }

  ghost predicate IsIdle(s: State, t: nat) { t < |s.calls| && s.calls[t].Idle? }

  // ---------------------------------------------------------------- runs

  datatype Run = Boot(disk: Disk, threads: nat) | After(run: Run, action: Action)

  function Empty(): Ways { seq(WAYS, _ => Line(false, Key(0, 0), [], 0)) }

  function Fresh(disk: Disk, threads: nat): State { State(seq(SETS, _ => Empty()), disk, seq(threads, _ => Idle)) }

  ghost predicate Valid(r: Run)
    decreases r, 0
  {
    match r
    case Boot(_, _) => true
    case After(q, a) => Valid(q) && Enabled(Now(q), a)
  }

  ghost function Now(r: Run): State
    requires Valid(r)
    decreases r, 1
  {
    match r
    case Boot(disk, n) => Fresh(disk, n)
    case After(q, a) => Apply(Now(q), a)
  }

  /** Which block a step puts in the cache or finds there. */
  ghost predicate Takes(s: State, a: Action, k: Key)
    requires Enabled(s, a)
  {
    || (a.Look? && a.k == k && a.w < |s.sets[SetOf(k)]|)
    || (a.Fill? && s.calls[a.t].k == k && Misses(s.sets[SetOf(k)], k))
    || (a.Update? && s.calls[a.t].k == k)
  }

  /** A hit, a fill and an update leave the block in its set, used last, and cost at most the
      least recently used of the others. */
  lemma TakesLeast(s: State, a: Action, k: Key)
    requires Enabled(s, a) && Takes(s, a, k) && forall i | 0 <= i < SETS :: |s.sets[i]| == WAYS
    ensures var s' := Apply(s, a);
            && |s'.sets| == SETS && Taken(s.sets[SetOf(k)], s'.sets[SetOf(k)], k, a.now)
            && forall i | 0 <= i < SETS && i != SetOf(k) :: s'.sets[i] == s.sets[i]
  {
    var ws, ws' := s.sets[SetOf(k)], Apply(s, a).sets[SetOf(k)];
    var v := if a.Fill? || (a.Update? && a.w == |ws|) then a.v else a.w;
    assert TakenAt(ws, ws', k, a.now, v);
  }

  // ---------------------------------------------------------------- coherence

  ghost predicate WroteAt(calls: seq<Call>, t: int, k: Key) { 0 <= t < |calls| && calls[t].Wrote? && calls[t].k == k }

  ghost predicate IsLoose(calls: seq<Call>, k: Key) { exists t :: WroteAt(calls, t, k) }

  /** The blocks that the device has taken and whose lines are still to be updated. */
  ghost function Loose(calls: seq<Call>): iset<Key> { iset k: Key | IsLoose(calls, k) }

  /** Every valid line is in its set, is the only one of its block, and equals the block on the
      disk unless a write that has reached the disk is about to update it. */
  ghost predicate Good(s: State) {
    |s.sets| == SETS && forall i | 0 <= i < SETS :: WaysOk(s.sets[i], i, s.disk, Loose(s.calls))
  }

  /** The ways to lose this, as guards on the state before the step. A fill comes too late if
      another way holds the block by now or the block has changed since the device read, an
      update if another write has reached the disk since. */
  ghost predicate Breaks(s: State, a: Action)
    requires Enabled(s, a)
  {
    match a
    case Fill(t, v, _) =>
      var c := s.calls[t];
      HitBeside(s.sets[SetOf(c.k)], v, c.k) || (c.k !in Loose(s.calls) && c.data != Content(s.disk, c.k))
    case Update(t, _, _, _) =>
      var c := s.calls[t];
      c.k !in Loose(s.calls[t := Idle]) && c.data != Content(s.disk, c.k)
    case Refuse(t, after) =>
      var c := s.calls[t];
      Stale(s.sets[SetOf(c.k)], s.disk[c.k := after], Loose(s.calls), iset{c.k})
    case StoreAround(t, written) =>
      var c := s.calls[t];
      exists i :: 0 <= i < SETS && Stale(s.sets[i], written, Loose(s.calls), RunOf(c.dev, c.lba, |c.blocks|))
    case _ => false
  }

  lemma LooseSame(calls: seq<Call>, t: nat, c: Call)
    requires t < |calls| && !calls[t].Wrote? && !c.Wrote?
    ensures Loose(calls[t := c]) == Loose(calls)
  {
    forall k ensures k in Loose(calls[t := c]) <==> k in Loose(calls) {
      if k in Loose(calls) { var u :| WroteAt(calls, u, k); assert WroteAt(calls[t := c], u, k); }
      if k in Loose(calls[t := c]) { var u :| WroteAt(calls[t := c], u, k); assert WroteAt(calls, u, k); }
    }
  }

  /** A write that has reached the disk makes its block loose. */
  lemma LooseMore(calls: seq<Call>, t: nat, c: Call)
    requires t < |calls| && calls[t].Wrote? && !c.Wrote?
    ensures Loose(calls) == Loose(calls[t := c]) + iset{calls[t].k}
  {
    forall k ensures k in Loose(calls) <==> k in Loose(calls[t := c]) + iset{calls[t].k} {
      if k in Loose(calls) { var u :| WroteAt(calls, u, k); assert u == t || WroteAt(calls[t := c], u, k); }
      if k in Loose(calls[t := c]) { var u :| WroteAt(calls[t := c], u, k); assert WroteAt(calls, u, k); }
      if k == calls[t].k { assert WroteAt(calls, t, k); }
    }
  }

  /** A change of one set is good if that set is. */
  lemma OneSet(s: State, s': State, j: nat)
    requires |s.sets| == |s'.sets| == SETS && j < SETS
    requires forall i | 0 <= i < SETS && i != j :: s'.sets[i] == s.sets[i] && WaysOk(s.sets[i], i, s'.disk, Loose(s'.calls))
    ensures Good(s') <==> WaysOk(s'.sets[j], j, s'.disk, Loose(s'.calls))
  {
  }

  lemma FillStep(s: State, a: Action)
    requires Good(s) && Enabled(s, a) && a.Fill?
    ensures Good(Apply(s, a)) <==> !Breaks(s, a)
  {
    var c := s.calls[a.t];
    LooseSame(s.calls, a.t, Idle);
    FillIn(s, Apply(s, a), SetOf(c.k), a.v, c, a.now);
  }

  lemma FillIn(s: State, s': State, j: nat, v: nat, c: Call, now: nat)
    requires Good(s) && c.Fetched? && j == SetOf(c.k) && v < WAYS
    requires s'.sets == WithWay(s.sets, j, v, Line(true, c.k, c.data, now)) && s'.disk == s.disk && Loose(s'.calls) == Loose(s.calls)
    ensures Good(s') <==> !HitBeside(s.sets[j], v, c.k) && (c.k in Loose(s.calls) || c.data == Content(s.disk, c.k))
  {
    FillExactly(s.sets[j], j, s.disk, Loose(s.calls), v, c.k, c.data, now);
    OneSet(s, s', j);
  }

  lemma LooseOthers(s: State, k: Key, loose: iset<Key>, i: nat)
    requires Good(s) && Loose(s.calls) == loose + iset{k} && i < SETS && i != SetOf(k)
    ensures WaysOk(s.sets[i], i, s.disk, loose)
  {
    OtherSetMisses(s.sets[i], i, s.disk, loose + iset{k}, k);
    Tighten(s.sets[i], i, s.disk, loose, iset{k});
  }

  lemma UpdateStep(s: State, a: Action)
    requires Good(s) && Enabled(s, a) && a.Update?
    ensures Good(Apply(s, a)) <==> !Breaks(s, a)
  {
    LooseMore(s.calls, a.t, Idle);
    UpdateIn(s, Apply(s, a), SetOf(s.calls[a.t].k), a);
  }

  lemma UpdateIn(s: State, s': State, j: nat, a: Action)
    requires Good(s) && Enabled(s, a) && a.Update? && s' == Apply(s, a) && j == SetOf(s.calls[a.t].k)
    requires Loose(s.calls) == Loose(s'.calls) + iset{s.calls[a.t].k}
    ensures Good(s') <==> s.calls[a.t].k in Loose(s'.calls) || s.calls[a.t].data == Content(s.disk, s.calls[a.t].k)
  {
    var c, ws, loose := s.calls[a.t], s.sets[j], Loose(s'.calls);
    UpdateWays(ws, j, s.disk, loose, a.w, a.v, c.k, c.data, a.now);
    forall i | 0 <= i < SETS && i != j ensures WaysOk(s.sets[i], i, s'.disk, loose) { LooseOthers(s, c.k, loose, i); }
    OneSet(s, s', j);
  }

  lemma UpdateWays(ws: Ways, j: nat, disk: Disk, loose: iset<Key>, w: nat, v: nat, k: Key, data: Block, now: nat)
    requires WaysOk(ws, j, disk, loose + iset{k}) && j == SetOf(k) && FirstHit(ws, k, w) && (w == |ws| ==> v < |ws|)
    ensures var ws' := if w < |ws| then ws[w := ws[w].(data := data, stamp := now)] else ws[v := Line(true, k, data, now)];
            WaysOk(ws', j, disk, loose) <==> k in loose || data == Content(disk, k)
  {
    if w < |ws| {
      TouchExactly(ws, j, disk, loose, w, k, data, now);
    } else {
      assert forall u | 0 <= u < |ws| :: !Hit(ws[u], k);
      Tighten(ws, j, disk, loose, iset{k});
      FillExactly(ws, j, disk, loose, v, k, data, now);
    }
  }

  lemma StoreStep(s: State, a: Action)
    requires Good(s) && Enabled(s, a) && a.Store?
    ensures Good(Apply(s, a))
  {
    var s', k := Apply(s, a), s.calls[a.t].k;
    LooseMore(s'.calls, a.t, Idle);
    LooseSame(s.calls, a.t, Idle);
    assert s'.calls[a.t := Idle] == s.calls[a.t := Idle];
    forall i | 0 <= i < SETS ensures WaysOk(s'.sets[i], i, s'.disk, Loose(s'.calls)) {
      DiskChange(s.sets[i], i, s.disk, s'.disk, Loose(s.calls), iset{k});
    }
  }

  lemma RefuseStep(s: State, a: Action)
    requires Good(s) && Enabled(s, a) && a.Refuse?
    ensures Good(Apply(s, a)) <==> !Breaks(s, a)
  {
    var s', k := Apply(s, a), s.calls[a.t].k;
    LooseSame(s.calls, a.t, Idle);
    DiskChange(s.sets[SetOf(k)], SetOf(k), s.disk, s'.disk, Loose(s.calls), iset{k});
    forall i | 0 <= i < SETS && i != SetOf(k) ensures WaysOk(s'.sets[i], i, s'.disk, Loose(s'.calls)) {
      DiskChange(s.sets[i], i, s.disk, s'.disk, Loose(s.calls), iset{k});
      OtherSetMisses(s.sets[i], i, s.disk, Loose(s.calls), k);
    }
  }

  lemma AroundStep(s: State, a: Action)
    requires Good(s) && Enabled(s, a) && a.StoreAround?
    ensures Good(Apply(s, a)) <==> !Breaks(s, a)
  {
    var s', c := Apply(s, a), s.calls[a.t];
    var run := RunOf(c.dev, c.lba, |c.blocks|);
    LooseSame(s.calls, a.t, Idle);
    forall i | 0 <= i < SETS ensures WaysOk(s'.sets[i], i, s'.disk, Loose(s'.calls)) <==> !Stale(s.sets[i], a.written, Loose(s.calls), run) {
      DiskChange(s.sets[i], i, s.disk, a.written, Loose(s.calls), run);
    }
  }

  /** Steps that only touch, invalidate or move a call on. */
  lemma OtherStep(s: State, a: Action)
    requires Good(s) && Enabled(s, a) && !a.Fill? && !a.Update? && !a.Store? && !a.Refuse? && !a.StoreAround?
    ensures Good(Apply(s, a))
  {
    var s' := Apply(s, a);
    if !a.Clear? {
      LooseSame(s.calls, a.t, s'.calls[a.t]);
      assert s'.calls == s.calls[a.t := s'.calls[a.t]];
    }
    forall i | 0 <= i < SETS ensures WaysOk(s'.sets[i], i, s'.disk, Loose(s'.calls)) {
      var ws := s.sets[i];
      assert WaysOk(ws, i, s.disk, Loose(s.calls));
      if a.Look? && s'.sets[i] != ws {
        forall w | 0 <= w < WAYS ensures LineOk(s'.sets[i][w], i, s.disk, Loose(s.calls)) { assert LineOk(ws[w], i, s.disk, Loose(s.calls)); }
      } else if a.Uncache? || a.Clear? {
        ShrunkOk(ws, s'.sets[i], i, s.disk, Loose(s.calls));
      }
    }
  }

  /** Exactly these steps break coherence. */
  lemma GoodExactly(s: State, a: Action)
    requires Good(s) && Enabled(s, a)
    ensures Good(Apply(s, a)) <==> !Breaks(s, a)
  {
    match a
    case Fill(_, _, _) => FillStep(s, a);
    case Update(_, _, _, _) => UpdateStep(s, a);
    case Store(_) => StoreStep(s, a);
    case Refuse(_, _) => RefuseStep(s, a);
    case StoreAround(_, _) => AroundStep(s, a);
    case _ => OtherStep(s, a);
  }

  ghost predicate AlwaysGood(r: Run)
    requires Valid(r)
  {
    Good(Now(r)) && (r.After? ==> AlwaysGood(r.run))
  }

  ghost predicate NeverBreaks(r: Run)
    requires Valid(r)
  {
    r.After? ==> NeverBreaks(r.run) && !Breaks(Now(r.run), r.action)
  }

  /** So a run stays coherent if and only if no step of it is one of those. */
  lemma {:induction false} RunGoodExactly(r: Run)
    requires Valid(r)
    ensures AlwaysGood(r) <==> NeverBreaks(r)
  {
    match r
    case Boot(_, _) =>
    case After(q, a) =>
      RunGoodExactly(q);
      if AlwaysGood(q) { GoodExactly(Now(q), a); }
  }

  /** Without a write under way between the disk and its line, every line equals its block. */
  lemma QuietIsCoherent(s: State)
    requires Good(s) && forall t | 0 <= t < |s.calls| :: !s.calls[t].Wrote?
    ensures forall i | 0 <= i < SETS :: WaysOk(s.sets[i], i, s.disk, iset{})
  {
    forall k ensures k !in Loose(s.calls) { assert forall t :: !WroteAt(s.calls, t, k); }
    assert Loose(s.calls) == iset{};
  }

  // ---------------------------------------------------------------- callers that take turns

  /** The blocks a call works on. */
  ghost function Blocked(c: Call): iset<Key> {
    match c
    case Idle => iset{}
    case Around(dev, lba, blocks, _) => RunOf(dev, lba, |blocks|)
    case _ => iset{c.k}
  }

  ghost predicate NoneOn(calls: seq<Call>, keys: iset<Key>) {
    forall t | 0 <= t < |calls| :: Blocked(calls[t]) !! keys
  }

  /** Calls that work on the same block do not overlap, and a device that refuses a block has
      not changed it. Calls on different blocks of one set may overlap in any way. */
  ghost predicate Polite(s: State, a: Action)
    requires Enabled(s, a)
  {
    match a
    case Look(_, k, _, _) => NoneOn(s.calls, iset{k})
    case BeginWrite(_, k, _) => NoneOn(s.calls, iset{k})
    case BeginAround(_, dev, lba, blocks) => NoneOn(s.calls, RunOf(dev, lba, |blocks|))
    case Refuse(t, after) => after == Content(s.disk, s.calls[t].k)
    case _ => true
  }

  /** The blocks that must not be cached while the call is where it is. */
  ghost function Shut(c: Call): iset<Key> {
    match c
    case Fetching(k) => iset{k}
    case Fetched(k, _) => iset{k}
    case Around(dev, lba, _, done) => RunOf(dev, lba, done)
    case _ => iset{}
  }

  ghost predicate Uncached(sets: seq<Ways>, keys: iset<Key>) {
    forall i | 0 <= i < |sets| :: NoneOf(sets[i], keys)
  }

  ghost predicate CallFits(s: State, c: Call) {
    && Uncached(s.sets, Shut(c))
    && (c.Fetched? || c.Wrote? ==> c.data == Content(s.disk, c.k))
    && (c.Around? ==> c.done <= |c.blocks|)
  }

  ghost predicate Apart(calls: seq<Call>) {
    forall t, u | 0 <= t < u < |calls| :: Blocked(calls[t]) !! Blocked(calls[u])
  }

  ghost predicate Settled(s: State) {
    Good(s) && Apart(s.calls) && forall t | 0 <= t < |s.calls| :: CallFits(s, s.calls[t])
  }

  /** The search that starts a read in a settled state returns what the disk has. */
  lemma HitReadsDisk(s: State, a: Action)
    requires Settled(s) && Enabled(s, a) && Polite(s, a) && a.Look? && a.w < WAYS
    ensures a.w < |s.sets[SetOf(a.k)]| && s.sets[SetOf(a.k)][a.w].data == Content(s.disk, a.k)
  {
    forall t | 0 <= t < |s.calls| ensures !WroteAt(s.calls, t, a.k) { assert Blocked(s.calls[t]) !! iset{a.k}; }
    assert a.k !in Loose(s.calls);
    assert LineOk(s.sets[SetOf(a.k)][a.w], SetOf(a.k), s.disk, Loose(s.calls));
  }

  lemma SettledNeverBreaks(s: State, a: Action)
    requires Settled(s) && Enabled(s, a) && Polite(s, a)
    ensures !Breaks(s, a)
  {
    if !a.Clear? { assert CallFits(s, s.calls[a.t]); }
    match a {
      case Fill(t, v, _) =>
        assert NoneOf(s.sets[SetOf(s.calls[t].k)], iset{s.calls[t].k});
      case Refuse(t, after) =>
        var k := s.calls[t].k;
        assert WaysOk(s.sets[SetOf(k)], SetOf(k), s.disk, Loose(s.calls));
        forall w | 0 <= w < WAYS ensures LineOk(s.sets[SetOf(k)][w], SetOf(k), s.disk, Loose(s.calls)) { }
      case StoreAround(t, _) =>
        assert forall i | 0 <= i < SETS :: NoneOf(s.sets[i], Shut(s.calls[t]));
      case _ =>
    }
  }

  /** A step on the blocks of one call: no line of another block becomes valid and no other
      block changes. */
  ghost predicate Local(s: State, s': State, keys: iset<Key>) {
    && |s'.sets| == |s.sets| && SameBut(s.disk, s'.disk, keys)
    && (forall i | 0 <= i < |s.sets| :: NewOnly(s.sets[i], s'.sets[i], keys))
  }

  ghost predicate NewOnly(ws: Ways, ws': Ways, keys: iset<Key>) {
    forall w | 0 <= w < |ws'| && ws'[w].valid :: ws'[w].key in keys || (w < |ws| && ws[w].valid && ws[w].key == ws'[w].key)
  }

  lemma OthersFit(s: State, s': State, c: Call, keys: iset<Key>)
    requires CallFits(s, c) && Local(s, s', keys) && Blocked(c) !! keys
    ensures CallFits(s', c)
  {
    forall i | 0 <= i < |s'.sets| ensures NoneOf(s'.sets[i], Shut(c)) {
      assert NewOnly(s.sets[i], s'.sets[i], keys) && NoneOf(s.sets[i], Shut(c));
      assert Shut(c) <= Blocked(c);
    }
  }

  lemma MoveSettled(s: State, a: Action, s': State, keys: iset<Key>)
    requires Settled(s) && Enabled(s, a) && Polite(s, a) && s' == Apply(s, a) && !a.Clear?
    requires Local(s, s', keys) && Blocked(s'.calls[a.t]) <= keys && CallFits(s', s'.calls[a.t])
    requires forall u | 0 <= u < |s.calls| && u != a.t :: Blocked(s.calls[u]) !! keys
    ensures Settled(s')
  {
    SettledNeverBreaks(s, a);
    GoodExactly(s, a);
    forall u | 0 <= u < |s.calls| && u != a.t ensures CallFits(s', s.calls[u]) { OthersFit(s, s', s.calls[u], keys); }
    forall t, u | 0 <= t < u < |s'.calls| ensures Blocked(s'.calls[t]) !! Blocked(s'.calls[u]) {
      assert t != a.t && u != a.t ==> Blocked(s.calls[t]) !! Blocked(s.calls[u]);
    }
  }

  lemma OwnBlocks(s: State, t: nat)
    requires Settled(s) && t < |s.calls|
    ensures forall u | 0 <= u < |s.calls| && u != t :: Blocked(s.calls[u]) !! Blocked(s.calls[t])
  {
    forall u | 0 <= u < |s.calls| && u != t ensures Blocked(s.calls[u]) !! Blocked(s.calls[t]) {
      assert if u < t then Blocked(s.calls[u]) !! Blocked(s.calls[t]) else Blocked(s.calls[t]) !! Blocked(s.calls[u]);
    }
  }

  lemma LookSettled(s: State, a: Action)
    requires Settled(s) && Enabled(s, a) && Polite(s, a) && a.Look?
    ensures Settled(Apply(s, a))
  {
    var s', j := Apply(s, a), SetOf(a.k);
    if a.w == |s.sets[j]| {
      forall i | 0 <= i < SETS ensures NoneOf(s'.sets[i], iset{a.k}) {
        if i != j { OtherSetMisses(s.sets[i], i, s.disk, Loose(s.calls), a.k); }
      }
    }
    forall i | 0 <= i < SETS ensures NewOnly(s.sets[i], s'.sets[i], iset{a.k}) { }
    MoveSettled(s, a, s', iset{a.k});
  }

  lemma UncacheSettled(s: State, a: Action)
    requires Settled(s) && Enabled(s, a) && a.Uncache?
    ensures Settled(Apply(s, a))
  {
    var s', c := Apply(s, a), s.calls[a.t];
    var k := NextBlock(c);
    assert CallFits(s, c);
    forall i | 0 <= i < SETS ensures NoneOf(s'.sets[i], RunOf(c.dev, c.lba, c.done + 1)) && NewOnly(s.sets[i], s'.sets[i], Blocked(c)) {
      assert NoneOf(s.sets[i], Shut(c));
      if i != SetOf(k) { OtherSetMisses(s.sets[i], i, s.disk, Loose(s.calls), k); }
      forall w | 0 <= w < |s'.sets[i]| && s'.sets[i][w].valid ensures s'.sets[i][w].key !in RunOf(c.dev, c.lba, c.done + 1) {
        assert s'.sets[i][w].key != k && s'.sets[i][w].key !in Shut(c);
      }
    }
    OwnBlocks(s, a.t);
    MoveSettled(s, a, s', Blocked(c));
  }

  lemma DeviceSettled(s: State, a: Action)
    requires Settled(s) && Enabled(s, a) && Polite(s, a)
    requires a.Fetch? || a.Store? || a.Refuse? || a.StoreAround? || a.Fill? || a.Update?
    ensures Settled(Apply(s, a))
  {
    var s', c := Apply(s, a), s.calls[a.t];
    assert CallFits(s, c);
    forall i | 0 <= i < SETS ensures NewOnly(s.sets[i], s'.sets[i], Blocked(c)) {
      assert WaysOk(s.sets[i], i, s.disk, Loose(s.calls));
    }
    forall i | 0 <= i < SETS && a.Fetch? && a.ok ensures NoneOf(s'.sets[i], iset{c.k}) { assert NoneOf(s.sets[i], Shut(c)); }
    OwnBlocks(s, a.t);
    MoveSettled(s, a, s', Blocked(c));
  }

  lemma PoliteKeeps(s: State, a: Action)
    requires Settled(s) && Enabled(s, a) && Polite(s, a)
    ensures Settled(Apply(s, a))
  {
    var s' := Apply(s, a);
    match a {
      case Look(_, _, _, _) => LookSettled(s, a);
      case Uncache(_) => UncacheSettled(s, a);
      case BeginWrite(t, k, _) => MoveSettled(s, a, s', iset{k});
      case BeginAround(t, dev, lba, blocks) => MoveSettled(s, a, s', RunOf(dev, lba, |blocks|));
      case Clear(i, ws) =>
        GoodExactly(s, a);
        forall t | 0 <= t < |s.calls| ensures CallFits(s', s.calls[t]) { OthersFit(s, s', s.calls[t], iset{}); }
      case _ => DeviceSettled(s, a);
    }
  }

  ghost predicate AllPolite(r: Run)
    requires Valid(r)
  {
    r.After? ==> AllPolite(r.run) && Polite(Now(r.run), r.action)
  }

  /** If calls on the same block take turns, then over every interleaving of the others the
      cache stays coherent, and what a read finds in it is what the disk has. */
  lemma {:induction false} PoliteIsGood(r: Run)
    requires Valid(r) && AllPolite(r)
    ensures Settled(Now(r))
  {
    match r
    case Boot(_, _) =>
    case After(q, a) =>
      PoliteIsGood(q);
      PoliteKeeps(Now(q), a);
  }

  // ---------------------------------------------------------------- runs that break it

  /** All calls have returned, and the cache holds something else than the disk. */
  ghost predicate LeftStale(s: State, k: Key) {
    && (forall t | 0 <= t < |s.calls| :: s.calls[t].Idle?)
    && |s.sets| == SETS && Stale(s.sets[SetOf(k)], s.disk, iset{}, iset{k}) && !Good(s)
  }

  lemma StaleIsLeft(s: State, k: Key, w: nat)
    requires |s.sets| == SETS && w < |s.sets[SetOf(k)]| && Hit(s.sets[SetOf(k)][w], k) && s.sets[SetOf(k)][w].data != Content(s.disk, k)
    requires forall t | 0 <= t < |s.calls| :: s.calls[t].Idle?
    ensures LeftStale(s, k)
  {
    var ws := s.sets[SetOf(k)];
    assert ws[w].key in iset{k} - iset{};
    assert Good(s) ==> WaysOk(ws, SetOf(k), s.disk, iset{}) by {
      if Good(s) { QuietIsCoherent(s); }
    }
    assert !LineOk(ws[w], SetOf(k), s.disk, iset{});
  }

  /** What matters of a state for one block. */
  ghost predicate At(s: State, k: Key, ws: Ways, disk: Disk, calls: seq<Call>) {
    |s.sets| == SETS && s.sets[SetOf(k)] == ws && s.disk == disk && s.calls == calls
  }

  /** A read by a thread that is idle: it misses the block and fetches it. */
  lemma FetchRun(q: Run, k: Key, ws: Ways, disk: Disk, calls: seq<Call>, t: nat) returns (r: Run)
    requires Valid(q) && At(Now(q), k, ws, disk, calls) && t < |calls| && calls[t].Idle? && FirstHit(ws, k, |ws|)
    ensures Valid(r) && At(Now(r), k, ws, disk, calls[t := Fetched(k, Content(disk, k))])
  {
    var q1 := After(q, Look(t, k, |ws|, 1));
    assert Valid(q1);
    r := After(q1, Fetch(t, true));
    assert Valid(r);
  }

  lemma FillRun(q: Run, k: Key, ws: Ways, disk: Disk, calls: seq<Call>, t: nat, v: nat, data: Block) returns (r: Run)
    requires Valid(q) && At(Now(q), k, ws, disk, calls) && t < |calls| && calls[t] == Fetched(k, data) && IsVictim(ws, v)
    ensures Valid(r) && At(Now(r), k, ws[v := Line(true, k, data, 2)], disk, calls[t := Idle])
  {
    r := After(q, Fill(t, v, 2));
    assert Valid(r);
  }

  /** A write by a thread that is idle, up to the device. */
  lemma StoreRun(q: Run, k: Key, ws: Ways, disk: Disk, calls: seq<Call>, t: nat, data: Block) returns (r: Run)
    requires Valid(q) && At(Now(q), k, ws, disk, calls) && t < |calls| && calls[t].Idle?
    ensures Valid(r) && At(Now(r), k, ws, disk[k := data], calls[t := Wrote(k, data)])
  {
    var q1 := After(q, BeginWrite(t, k, data));
    assert Valid(q1);
    r := After(q1, Store(t));
    assert Valid(r);
  }

  lemma UpdateRun(q: Run, k: Key, ws: Ways, disk: Disk, calls: seq<Call>, t: nat, w: nat, v: nat, data: Block) returns (r: Run)
    requires Valid(q) && At(Now(q), k, ws, disk, calls) && t < |calls| && calls[t] == Wrote(k, data)
    requires FirstHit(ws, k, w) && (w == |ws| ==> IsVictim(ws, v))
    ensures Valid(r) && At(Now(r), k, if w < |ws| then ws[w := ws[w].(data := data, stamp := 3)] else ws[v := Line(true, k, data, 3)], disk, calls[t := Idle])
  {
    r := After(q, Update(t, w, v, 3));
    assert Valid(r);
  }

  /** A bypassing write of one block that is not cached, up to the device. */
  lemma UncacheRun(q: Run, k: Key, ws: Ways, disk: Disk, calls: seq<Call>, t: nat, data: Block) returns (r: Run)
    requires Valid(q) && At(Now(q), k, ws, disk, calls) && t < |calls| && calls[t].Idle? && Misses(ws, k)
    ensures Valid(r) && At(Now(r), k, ws, disk, calls[t := Around(k.dev, k.lba, [data], 1)])
  {
    var q1 := After(q, BeginAround(t, k.dev, k.lba, [data]));
    assert Valid(q1);
    r := After(q1, Uncache(t));
    assert Valid(r);
    assert Cleared(ws, OfBlock(k)) == ws;
  }

  /** Two reads of one block overlap and fill two lines. */
  lemma TwoLines(disk: Disk, k: Key) returns (r: Run)
    ensures Valid(r) && At(Now(r), k, Empty()[0 := Line(true, k, Content(disk, k), 2)][1 := Line(true, k, Content(disk, k), 2)], disk, [Idle, Idle])
  {
    var d := Content(disk, k);
    assert At(Now(Boot(disk, 2)), k, Empty(), disk, [Idle, Idle]);
    var p := FetchRun(Boot(disk, 2), k, Empty(), disk, [Idle, Idle], 0);
    var q := FetchRun(p, k, Empty(), disk, [Fetched(k, d), Idle], 1);
    var q1 := FillRun(q, k, Empty(), disk, [Fetched(k, d), Fetched(k, d)], 0, 0, d);
    r := FillRun(q1, k, Empty()[0 := Line(true, k, d, 2)], disk, [Idle, Fetched(k, d)], 1, 1, d);
  }

  /** A later write updates the first of them. */
  lemma TwoReaders(disk: Disk, k: Key, b: Block) returns (r: Run)
    requires b != Content(disk, k)
    ensures Valid(r) && LeftStale(Now(r), k)
  {
    var l := Line(true, k, Content(disk, k), 2);
    var ws := Empty()[0 := l][1 := l];
    var q := TwoLines(disk, k);
    var q1 := StoreRun(q, k, ws, disk, [Idle, Idle], 0, b);
    r := UpdateRun(q1, k, ws, disk[k := b], [Wrote(k, b), Idle], 0, 0, 0, b);
    StaleIsLeft(Now(r), k, 1);
  }

  /** A read fetches, a write of the block runs from start to end, the read fills. */
  lemma LateFill(disk: Disk, k: Key, b: Block) returns (r: Run)
    requires b != Content(disk, k)
    ensures Valid(r) && LeftStale(Now(r), k)
  {
    var d := Content(disk, k);
    assert At(Now(Boot(disk, 2)), k, Empty(), disk, [Idle, Idle]);
    var q2 := FetchRun(Boot(disk, 2), k, Empty(), disk, [Idle, Idle], 0);
    var q3 := StoreRun(q2, k, Empty(), disk, [Fetched(k, d), Idle], 1, b);
    var q4 := UpdateRun(q3, k, Empty(), disk[k := b], [Fetched(k, d), Wrote(k, b)], 1, WAYS, 0, b);
    r := FillRun(q4, k, Empty()[0 := Line(true, k, b, 3)], disk[k := b], [Fetched(k, d), Idle], 0, 1, d);
    StaleIsLeft(Now(r), k, 1);
  }

  /** Two writes of one block reach the disk in one order and the line in the other. */
  lemma TwoWriters(disk: Disk, k: Key, a: Block, b: Block) returns (r: Run)
    requires a != b
    ensures Valid(r) && LeftStale(Now(r), k)
  {
    var q := Boot(disk, 2);
    assert At(Now(q), k, Empty(), disk, [Idle, Idle]);
    var q1 := StoreRun(q, k, Empty(), disk, [Idle, Idle], 0, a);
    var q2 := StoreRun(q1, k, Empty(), disk[k := a], [Wrote(k, a), Idle], 1, b);
    var q3 := UpdateRun(q2, k, Empty(), disk[k := a][k := b], [Wrote(k, a), Wrote(k, b)], 1, WAYS, 0, b);
    r := UpdateRun(q3, k, Empty()[0 := Line(true, k, b, 3)], disk[k := a][k := b], [Wrote(k, a), Idle], 0, 0, 0, a);
    StaleIsLeft(Now(r), k, 0);
  }

  /** A bypassing write invalidates the block, a read that fetched before fills it, and then
      the device takes the write. */
  lemma FillBeforeAround(disk: Disk, k: Key, b: Block) returns (r: Run)
    requires b != Content(disk, k)
    ensures Valid(r) && LeftStale(Now(r), k)
  {
    var d := Content(disk, k);
    assert At(Now(Boot(disk, 2)), k, Empty(), disk, [Idle, Idle]);
    var q2 := FetchRun(Boot(disk, 2), k, Empty(), disk, [Idle, Idle], 0);
    var q4 := UncacheRun(q2, k, Empty(), disk, [Fetched(k, d), Idle], 1, b);
    var q5 := FillRun(q4, k, Empty(), disk, [Fetched(k, d), Around(k.dev, k.lba, [b], 1)], 0, 0, d);
    r := After(q5, StoreAround(1, disk[k := b]));
    assert Valid(r) && Now(r).calls == [Idle, Idle];
    StaleIsLeft(Now(r), k, 0);
  }

  /** A refused write that nevertheless changed the block leaves its line as it was. */
  lemma RefusedWrite(disk: Disk, k: Key, a: Block, b: Block, after: Block) returns (r: Run)
    requires after != a
    ensures Valid(r) && LeftStale(Now(r), k)
  {
    assert At(Now(Boot(disk, 1)), k, Empty(), disk, [Idle]);
    var q1 := StoreRun(Boot(disk, 1), k, Empty(), disk, [Idle], 0, a);
    var q2 := UpdateRun(q1, k, Empty(), disk[k := a], [Wrote(k, a)], 0, WAYS, 0, a);
    var q3 := After(q2, BeginWrite(0, k, b));
    assert Valid(q3);
    r := After(q3, Refuse(0, after));
    assert Valid(r);
    StaleIsLeft(Now(r), k, 0);
  }
}
