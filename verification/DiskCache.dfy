/** The block cache object of system/disk/cache.cpp. Each locked section and each device
    transfer is one method and one step of CacheProtocol; readBlock and writeBlock are what
    these amount to when no other call is under way. */
module DiskCache {
  import opened CacheLines
  import opened CacheProtocol

  class DiskCache {
    const sets: array<Ways>
    var disk: Disk
    ghost var calls: seq<Call>

    ghost function Now(): State
      reads this, sets
    {
      State(sets[..], disk, calls)
    }

    ghost predicate Sized()
      reads this, sets
    {
      && sets.Length == SETS && |calls| > 0
      && (forall s | 0 <= s < SETS :: |sets[s]| == WAYS)
      && (forall s, w | 0 <= s < SETS && 0 <= w < WAYS :: sets[s][w].stamp <= MAX_STAMP)
    }

    /** No call is under way; every valid line equals its disk block, is in its hash set and is
        the only one of its block. */
    ghost predicate Coherent()
      reads this, sets
    {
      Sized() && (forall t | 0 <= t < |calls| :: calls[t].Idle?) && forall s | 0 <= s < SETS :: WaysOk(sets[s], s, disk, iset{})
    }

    /** init, on any disks. */
    constructor (disk: Disk, ghost threads: nat)
      requires threads > 0
      ensures Coherent() && this.disk == disk && fresh(sets) && Now() == Fresh(disk, threads)
    {
      sets := new Ways[SETS](_ => Empty());
      this.disk := disk;
      calls := seq(threads, _ => Idle);
      new;
      assert sets[..] == seq(SETS, _ => Empty());
    }

    // -------------------------------------------------------------- sections

    /** A store into one way. */
    method SetWay(s: nat, w: nat, l: Line)
      requires Sized() && s < SETS && w < WAYS && l.stamp <= MAX_STAMP
      modifies sets
      ensures Sized() && sets[..] == WithWay(old(sets[..]), s, w, l)
    {
      sets[s] := sets[s][w := l];
    }

    /** readBlock's search. */
    method Lookup(k: Key, now: nat, ghost t: nat) returns (hit: bool, out: Block, ghost w: nat)
      requires Sized() && IsIdle(Now(), t) && now <= MAX_STAMP
      modifies sets, this`calls
      ensures Sized() && Enabled(old(Now()), Look(t, k, w, now)) && Now() == Apply(old(Now()), Look(t, k, w, now))
      ensures (hit <==> w < WAYS) && (hit ==> out == old(sets[SetOf(k)])[w].data)
    {
      var s := Hash(k);
      var v := Find(sets[s], k);
      w := v;
      if v < |sets[s]| {
        hit, out := true, sets[s][v].data;
        SetWay(s, v, sets[s][v].(stamp := now));
      } else {
        hit, out := false, [];
        calls := calls[t := Fetching(k)];
      }
    }

    /** readBlock's device read. */
    method FetchBlock(k: Key, devOk: bool, ghost t: nat) returns (out: Block)
      requires Sized() && t < |calls| && calls[t] == Fetching(k)
      modifies this`calls
      ensures Sized() && Now() == Apply(old(Now()), Fetch(t, devOk)) && (devOk ==> out == Content(disk, k))
    {
      out := if devOk then Content(disk, k) else [];
      calls := calls[t := if devOk then Fetched(k, out) else Idle];
    }

    /** The stores into a victim way. */
    method FillVictim(s: nat, k: Key, data: Block, now: nat) returns (v: nat)
      requires Sized() && s < SETS && now <= MAX_STAMP
      modifies sets
      ensures Sized() && IsVictim(old(sets[s]), v) && sets[..] == WithWay(old(sets[..]), s, v, Line(true, k, data, now))
    {
      v := Victim(sets[s]);
      SetWay(s, v, Line(true, k, data, now));
    }

    /** readBlock's fill, which does not search again. */
    method FillBlock(k: Key, data: Block, now: nat, ghost t: nat) returns (ghost v: nat)
      requires Sized() && t < |calls| && calls[t] == Fetched(k, data) && now <= MAX_STAMP
      modifies sets, this`calls
      ensures Sized() && Enabled(old(Now()), Fill(t, v, now)) && Now() == Apply(old(Now()), Fill(t, v, now))
    {
      var s := Hash(k);
      v := FillVictim(s, k, data, now);
      calls := calls[t := Idle];
    }

    /** writeBlock's device write; a refused one may leave anything in the block. */
    method StoreBlock(k: Key, b: Block, devOk: bool, after: Block, ghost t: nat)
      requires Sized() && t < |calls| && calls[t] == Writing(k, b)
      modifies this`disk, this`calls
      ensures Sized() && Now() == Apply(old(Now()), if devOk then Store(t) else Refuse(t, after))
    {
      disk := disk[k := if devOk then b else after];
      calls := calls[t := if devOk then Wrote(k, b) else Idle];
    }

    /** writeBlock's search and update or fill. */
    method UpdateBlock(k: Key, b: Block, now: nat, ghost t: nat) returns (ghost w: nat, ghost v: nat)
      requires Sized() && t < |calls| && calls[t] == Wrote(k, b) && now <= MAX_STAMP
      modifies sets, this`calls
      ensures Sized() && Enabled(old(Now()), Update(t, w, v, now)) && Now() == Apply(old(Now()), Update(t, w, v, now))
    {
      var s := Hash(k);
      var i := Find(sets[s], k);
      w, v := i, 0;
      if i < |sets[s]| {
        SetWay(s, i, sets[s][i].(data := b, stamp := now));
      } else {
        v := FillVictim(s, k, b, now);
      }
      calls := calls[t := Idle];
    }

    /** The invalidation of one block before a bypassing write. */
    method UncacheBlock(k: Key, ghost t: nat)
      requires Sized() && t < |calls| && calls[t].Around? && calls[t].done < |calls[t].blocks| && k == NextBlock(calls[t])
      modifies sets, this`calls
      ensures Sized() && Now() == Apply(old(Now()), Uncache(t))
    {
      var s := Hash(k);
      var ws := ClearLines(sets[s], OfBlock(k));
      sets[s] := ws;
      calls := calls[t := calls[t].(done := calls[t].done + 1)];
    }

    /** The device write that ends a bypassing write. */
    method StoreRun(after: Disk, ghost t: nat)
      requires Sized() && t < |calls| && Enabled(Now(), StoreAround(t, after))
      modifies this`disk, this`calls
      ensures Sized() && Now() == Apply(old(Now()), StoreAround(t, after))
    {
      disk := after;
      calls := calls[t := Idle];
    }

    // -------------------------------------------------------------- calls that run alone

    /** At rest, coherence is what the protocol calls settled. */
    lemma AtRest()
      requires Sized() && forall t | 0 <= t < |calls| :: calls[t].Idle?
      ensures Coherent() <==> Good(Now())
      ensures Coherent() <==> Settled(Now())
      ensures forall keys: iset<Key> :: NoneOn(calls, keys)
    {
      if Good(Now()) { QuietIsCoherent(Now()); }
      forall k ensures !IsLoose(calls, k) { assert forall t :: !WroteAt(calls, t, k); }
      assert Loose(calls) == iset{};
    }

    /** The block is cached and was used last, at the cost of at most the least recently used
        line of its set. */
    twostate predicate Through(k: Key, now: nat)
      requires sets.Length == SETS
      reads sets
    {
      && Taken(old(sets[SetOf(k)]), sets[SetOf(k)], k, now)
      && forall s | 0 <= s < SETS && s != SetOf(k) :: sets[s] == old(sets[s])
    }

    /** The body of readBlock's loop. */
    method ReadOne(k: Key, memory: bool, devOk: bool, now: nat) returns (ok: bool, out: Block)
      requires Coherent() && now <= MAX_STAMP
      modifies sets, this`calls
      ensures Coherent() && (ok ==> out == Content(disk, k)) && (ok ==> Through(k, now))
      ensures ok <==> !old(Misses(sets[SetOf(k)], k)) || (memory && devOk)
    {
      AtRest();
      ghost var w;
      ok, out, w := Lookup(k, now, 0);
      PoliteKeeps(old(Now()), Look(0, k, w, now));
      if ok {
        HitReadsDisk(old(Now()), Look(0, k, w, now));
        TakesLeast(old(Now()), Look(0, k, w, now), k);
        AtRest();
        return;
      }
      if !memory {
        calls := calls[0 := Idle];
        assert Now() == old(Now());
        return;
      }
      ok, out := FetchAndFill(k, devOk, now);
    }

    /** The rest of it after a miss. */
    method FetchAndFill(k: Key, devOk: bool, now: nat) returns (ok: bool, out: Block)
      requires Sized() && Settled(Now()) && calls[0] == Fetching(k) && now <= MAX_STAMP
      requires (forall t | 0 < t < |calls| :: calls[t].Idle?) && Misses(sets[SetOf(k)], k)
      modifies sets, this`calls
      ensures Coherent() && ok == devOk && (ok ==> out == Content(disk, k)) && (ok ==> Through(k, now))
    {
      PoliteKeeps(Now(), Fetch(0, devOk));
      out := FetchBlock(k, devOk, 0);
      if !devOk {
        AtRest();
        return false, out;
      }
      ghost var s := Now();
      ghost var v := FillBlock(k, out, now, 0);
      PoliteKeeps(s, Fill(0, v, now));
      TakesLeast(s, Fill(0, v, now), k);
      AtRest();
      ok := true;
    }

    /** readBlock: cached or not, what it returns is what a direct read would. */
    method ReadBlock(dev: nat, lba: nat, count: nat, blockSize: nat, aligned: bool, memory: bool, devOk: bool, now: nat)
      returns (ok: bool, out: seq<Block>)
      requires Coherent() && now <= MAX_STAMP
      modifies sets, this`calls
      ensures Coherent() && (ok ==> out == Blocks(disk, dev, lba, count))
      ensures ok <==> if blockSize != BLOCK_SIZE || count > 1 || !aligned then devOk
                      else count == 0 || !old(Misses(sets[SetOf(Key(dev, lba))], Key(dev, lba))) || (memory && devOk)
    {
      if blockSize != BLOCK_SIZE || count > 1 || !aligned {
        return devOk, if devOk then Blocks(disk, dev, lba, count) else [];
      }
      out := [];
      for i := 0 to count
        invariant Coherent() && out == Blocks(disk, dev, lba, i)
        invariant i == 0 ==> sets[..] == old(sets[..])
        invariant i == 1 ==> !old(Misses(sets[SetOf(Key(dev, lba))], Key(dev, lba))) || (memory && devOk)
      {
        var b;
        ok, b := ReadOne(Key(dev, lba + i), memory, devOk, now);
        if !ok {
          return;
        }
        BlocksMore(disk, dev, lba, i);
        out := out + [b];
      }
      ok := true;
    }

    /** writeBlock on the cached path. If the device refuses, the line is left as it was: the
        cache is then coherent exactly if the block was not cached or did not change. */
    method WriteOne(k: Key, b: Block, memory: bool, devOk: bool, after: Block, now: nat) returns (ok: bool)
      requires Coherent() && now <= MAX_STAMP
      modifies sets, this`disk, this`calls
      ensures Sized() && (forall t | 0 <= t < |calls| :: calls[t].Idle?) && (ok <==> memory && devOk)
      ensures disk == if !memory then old(disk) else if devOk then old(disk)[k := b] else old(disk)[k := after]
      ensures ok || !memory ==> Coherent()
      ensures ok ==> Through(k, now)
      ensures memory && !devOk ==> (Coherent() <==> old(Misses(sets[SetOf(k)], k)) || after == Content(old(disk), k))
    {
      if !memory {
        return false;
      }
      AtRest();
      PoliteKeeps(Now(), BeginWrite(0, k, b));
      calls := calls[0 := Writing(k, b)];
      if devOk {
        StoreAndUpdate(k, b, now);
        return true;
      }
      Refused(k, b, after);
      ok := false;
    }

    method Refused(k: Key, b: Block, after: Block)
      requires Sized() && Settled(Now()) && calls[0] == Writing(k, b) && forall t | 0 < t < |calls| :: calls[t].Idle?
      modifies this`disk, this`calls
      ensures Sized() && (forall t | 0 <= t < |calls| :: calls[t].Idle?) && disk == old(disk)[k := after]
      ensures Coherent() <==> Misses(sets[SetOf(k)], k) || after == Content(old(disk), k)
    {
      ghost var s := Now();
      assert Loose(s.calls) == iset{} by { assert forall x, t :: !WroteAt(s.calls, t, x); }
      StoreBlock(k, b, false, after, 0);
      GoodExactly(s, Refuse(0, after));
      AtRest();
      RefusedStale(sets[SetOf(k)], old(disk), k, after);
    }

    method StoreAndUpdate(k: Key, b: Block, now: nat)
      requires Sized() && Settled(Now()) && calls[0] == Writing(k, b) && now <= MAX_STAMP
      requires forall t | 0 < t < |calls| :: calls[t].Idle?
      modifies sets, this`disk, this`calls
      ensures Coherent() && disk == old(disk)[k := b] && Through(k, now)
    {
      PoliteKeeps(Now(), Store(0));
      StoreBlock(k, b, true, [], 0);
      ghost var s := Now();
      ghost var w, v := UpdateBlock(k, b, now, 0);
      PoliteKeeps(s, Update(0, w, v, now));
      TakesLeast(s, Update(0, w, v, now), k);
      AtRest();
    }

    /** The invalidation before a bypassing write: no block of the run stays cached. */
    method UncacheRun(dev: nat, lba: nat, ghost data: seq<Block>, count: nat)
      requires Sized() && Settled(Now()) && calls[0] == Around(dev, lba, data, 0) && count == |data|
      requires forall t | 0 < t < |calls| :: calls[t].Idle?
      modifies sets, this`calls
      ensures Sized() && Settled(Now()) && calls[0] == Around(dev, lba, data, count) && |calls| == |old(calls)|
      ensures forall t | 0 < t < |calls| :: calls[t].Idle?
      ensures Uncached(sets[..], RunOf(dev, lba, count))
    {
      for i := 0 to count
        invariant Sized() && Settled(Now()) && |calls| == |old(calls)| && calls[0] == Around(dev, lba, data, i)
        invariant forall t | 0 < t < |calls| :: calls[t].Idle?
      {
        PoliteKeeps(Now(), Uncache(0));
        UncacheBlock(Key(dev, lba + i), 0);
      }
      assert CallFits(Now(), calls[0]);
    }

    /** writeBlock on the bypass: stale lines are gone before the device is touched, so the
        cache stays coherent even if the device fails half-way. */
    method WriteAround(dev: nat, lba: nat, data: seq<Block>, devOk: bool, after: Disk)
      requires Coherent() && SameBut(disk, after, RunOf(dev, lba, |data|))
      modifies sets, this`disk, this`calls
      ensures Coherent() && disk == if devOk then Stored(old(disk), dev, lba, data) else after
    {
      AtRest();
      PoliteKeeps(Now(), BeginAround(0, dev, lba, data));
      calls := calls[0 := Around(dev, lba, data, 0)];
      UncacheRun(dev, lba, data, |data|);
      StoredBut(disk, dev, lba, data);
      var d := if devOk then Stored(disk, dev, lba, data) else after;
      PoliteKeeps(Now(), StoreAround(0, d));
      StoreRun(d, 0);
      AtRest();
    }

    /** writeBlock as a whole. */
    method WriteBlock(dev: nat, lba: nat, data: seq<Block>, blockSize: nat, aligned: bool, memory: bool, devOk: bool, after: Disk, now: nat)
      returns (ok: bool)
      requires Coherent() && now <= MAX_STAMP && SameBut(disk, after, RunOf(dev, lba, |data|))
      modifies sets, this`disk, this`calls
      ensures ok <==> if blockSize != BLOCK_SIZE || |data| > 1 || !aligned then devOk else |data| == 0 || (memory && devOk)
      ensures ok ==> Coherent() && disk == Stored(old(disk), dev, lba, data)
      ensures !ok && (blockSize != BLOCK_SIZE || |data| > 1 || !aligned) ==> Coherent() && disk == after
      ensures !ok && blockSize == BLOCK_SIZE && |data| <= 1 && aligned ==>
          var k := Key(dev, lba);
          if memory then (Coherent() <==> old(Misses(sets[SetOf(k)], k)) || Content(after, k) == Content(old(disk), k))
          else Coherent() && disk == old(disk)
    {
      if blockSize != BLOCK_SIZE || |data| > 1 || !aligned {
        WriteAround(dev, lba, data, devOk, after);
        return devOk;
      }
      StoredOne(disk, dev, lba, data);
      if |data| == 0 {
        return true;
      }
      ok := WriteOne(Key(dev, lba), data[0], memory, devOk, Content(after, Key(dev, lba)), now);
    }

    /** Coherent except perhaps for some blocks. */
    ghost predicate CoherentBut(keys: iset<Key>)
      reads this, sets
    {
      Sized() && (forall t | 0 <= t < |calls| :: calls[t].Idle?) && forall s | 0 <= s < SETS :: WaysOk(sets[s], s, disk, keys)
    }

    /** Writes behind the cache's back to one device leave it coherent except for that device. */
    lemma WrittenElsewhere(dev: nat, after: Disk)
      requires Coherent() && SameBut(disk, after, OnDevice(dev))
      ensures forall s | 0 <= s < SETS :: WaysOk(sets[s], s, after, OnDevice(dev))
    {
      forall s | 0 <= s < SETS ensures WaysOk(sets[s], s, after, OnDevice(dev)) {
        DiskChange(sets[s], s, disk, after, iset{}, OnDevice(dev));
        assert iset{} + OnDevice(dev) == OnDevice(dev);
      }
    }

    /** invalidateDevice makes up for it. */
    method InvalidateDevice(dev: nat)
      requires CoherentBut(OnDevice(dev))
      modifies sets
      ensures Coherent() && Uncached(sets[..], OnDevice(dev))
    {
      for s := 0 to SETS
        invariant CoherentBut(OnDevice(dev)) && forall i | 0 <= i < s :: NoneOf(sets[i], OnDevice(dev))
      {
        ClearSet(s, dev);
      }
      forall s | 0 <= s < SETS ensures WaysOk(sets[s], s, disk, iset{}) {
        assert iset{} + OnDevice(dev) == OnDevice(dev);
        Tighten(sets[s], s, disk, iset{}, OnDevice(dev));
      }
    }

    method ClearSet(s: nat, dev: nat)
      requires CoherentBut(OnDevice(dev)) && s < SETS && forall i | 0 <= i < s :: NoneOf(sets[i], OnDevice(dev))
      modifies sets
      ensures CoherentBut(OnDevice(dev)) && forall i | 0 <= i <= s :: NoneOf(sets[i], OnDevice(dev))
    {
      var ws := ClearLines(sets[s], (l: Line) => l.key.dev == dev);
      ShrunkOk(sets[s], ws, s, disk, OnDevice(dev));
      sets[s] := ws;
    }

    /** flushAll: nothing stays cached. */
    method FlushAll()
      requires Sized() && forall t | 0 <= t < |calls| :: calls[t].Idle?
      modifies sets
      ensures Coherent() && forall s, w | 0 <= s < SETS && 0 <= w < WAYS :: !sets[s][w].valid
    {
      for s := 0 to SETS
        invariant Sized() && forall t, w | 0 <= t < s && 0 <= w < WAYS :: !sets[t][w].valid
      {
        var ws := ClearLines(sets[s], _ => true);
        sets[s] := ws;
      }
    }
  }

  /** The blocks of a device. */
  ghost function OnDevice(dev: nat): iset<Key> { iset k: Key | k.dev == dev }

  lemma RefusedStale(ws: Ways, disk: Disk, k: Key, after: Block)
    requires WaysOk(ws, SetOf(k), disk, iset{})
    ensures Stale(ws, disk[k := after], iset{}, iset{k}) <==> !Misses(ws, k) && after != Content(disk, k)
  {
    forall w | 0 <= w < WAYS && Hit(ws[w], k) ensures ws[w].data == Content(disk, k) && ws[w].key in iset{k} - iset{} {
      assert LineOk(ws[w], SetOf(k), disk, iset{});
    }
    if !Misses(ws, k) {
      var w :| 0 <= w < WAYS && Hit(ws[w], k);
      assert ws[w].key in iset{k} - iset{};
    }
  }
}
