/** The per-CPU frame caches of rust_core/src/memory/pmm.rs under interleaving. A caller that
    finds its magazine empty or full drops the magazine's lock, and with it restores interrupts,
    before it refills or flushes it; each locked section is a step of its own. The extents are
    a set of frames here. */
module MagazineProtocol {
  import opened Counting
  import opened PmmExtents

  type Frame = nat

  /** Where a thread is: pmm_alloc_frame after it found the magazine empty and after the refill,
      pmm_free_frame with its frame after it found the magazine full and after the flush. */
  datatype Call = Idle | Missed(cpu: nat) | Loaded(cpu: nat) | Full(cpu: nat, frame: Frame) | Flushed(cpu: nat, frame: Frame)

  datatype State = State(pool: set<Frame>, mags: seq<seq<Frame>>, held: set<Frame>, calls: seq<Call>)

  datatype Action =
    | Pop(t: nat, cpu: nat) | Miss(t: nat, cpu: nat) | Refill(t: nat, loaded: seq<Frame>) | PopLoaded(t: nat)
    | Push(t: nat, cpu: nat, f: Frame) | Overfull(t: nat, cpu: nat, f: Frame) | Flush(t: nat) | PutFirst(t: nat)
    | Take(t: nat, frames: set<Frame>) | Give(t: nat, frames: set<Frame>) | FlushOwn(t: nat, cpu: nat)

  // ---------------------------------------------------------------- steps

  /** What a refill may load: a full magazine, or all there is. */
  ghost predicate Loads(pool: set<Frame>, frames: seq<Frame>) {
    && |frames| <= MAGAZINE_SIZE && (forall i | 0 <= i < |frames| :: frames[i] in pool)
    && (forall i, j | 0 <= i < j < |frames| :: frames[i] != frames[j])
    && (|frames| < MAGAZINE_SIZE ==> forall f | f in pool :: f in frames)
  }

  /** The last three are moves past the magazines: allocations from the extents, contiguous or
      after an empty refill; releases to them, contiguous or of a last reference; and
      pmm_flush_magazines. PopLoaded on an empty magazine would underflow its count, and is not
      enabled. */
  ghost predicate Enabled(s: State, a: Action) {
    && a.t < |s.calls|
    && match a
       case Pop(t, cpu) => s.calls[t].Idle? && cpu < |s.mags| && s.mags[cpu] != []
       case Miss(t, cpu) => s.calls[t].Idle? && cpu < |s.mags| && s.mags[cpu] == []
       case Refill(t, frames) => s.calls[t].Missed? && s.calls[t].cpu < |s.mags| && Loads(s.pool, frames)
       case PopLoaded(t) => s.calls[t].Loaded? && s.calls[t].cpu < |s.mags| && s.mags[s.calls[t].cpu] != []
       case Push(t, cpu, f) => s.calls[t].Idle? && cpu < |s.mags| && f in s.held && |s.mags[cpu]| < MAGAZINE_SIZE
       case Overfull(t, cpu, f) => s.calls[t].Idle? && cpu < |s.mags| && f in s.held && |s.mags[cpu]| >= MAGAZINE_SIZE
       case Flush(t) => s.calls[t].Full? && s.calls[t].cpu < |s.mags|
       case PutFirst(t) => s.calls[t].Flushed? && s.calls[t].cpu < |s.mags|
       case Take(t, frames) => s.calls[t].Idle? && frames <= s.pool
       case Give(t, frames) => s.calls[t].Idle? && frames <= s.held
       case FlushOwn(t, cpu) => s.calls[t].Idle? && cpu < |s.mags|
  }

  /** The last frame of a magazine goes to the caller. */
  ghost function Popped(s: State, t: nat, cpu: nat): State
    requires t < |s.calls| && cpu < |s.mags| && s.mags[cpu] != []
  {
    var n := |s.mags[cpu]| - 1;
    s.(mags := s.mags[cpu := s.mags[cpu][..n]], held := s.held + {s.mags[cpu][n]}, calls := s.calls[t := Idle])
  }

  ghost function Apply(s: State, a: Action): State
    requires Enabled(s, a)
  {
    match a
    case Pop(t, cpu) => Popped(s, t, cpu)
    case Miss(t, cpu) => s.(calls := s.calls[t := Missed(cpu)])
    case Refill(t, frames) =>
      var cpu := s.calls[t].cpu;
      s.(pool := s.pool - (set f | f in frames), mags := s.mags[cpu := frames], calls := s.calls[t := if frames == [] then Idle else Loaded(cpu)])
    case PopLoaded(t) => Popped(s, t, s.calls[t].cpu)
    case Push(t, cpu, f) => s.(mags := s.mags[cpu := s.mags[cpu] + [f]], held := s.held - {f})
    case Overfull(t, cpu, f) => s.(held := s.held - {f}, calls := s.calls[t := Full(cpu, f)])
    case Flush(t) =>
      var cpu := s.calls[t].cpu;
      s.(pool := s.pool + (set f | f in s.mags[cpu]), mags := s.mags[cpu := []], calls := s.calls[t := Flushed(cpu, s.calls[t].frame)])
    case PutFirst(t) => s.(mags := s.mags[s.calls[t].cpu := [s.calls[t].frame]], calls := s.calls[t := Idle])
    case Take(t, frames) => s.(pool := s.pool - frames, held := s.held + frames)
    case Give(t, frames) => s.(pool := s.pool + frames, held := s.held - frames)
    case FlushOwn(t, cpu) => s.(pool := s.pool + (set f | f in s.mags[cpu]), mags := s.mags[cpu := []])
  }

  // ---------------------------------------------------------------- runs

  datatype Run = Boot(pool: set<Frame>, cpus: nat, threads: nat) | After(run: Run, action: Action)

  ghost predicate Valid(r: Run)
    decreases r, 0
  {
    match r
    case Boot(_, _, _) => true
    case After(q, a) => Valid(q) && Enabled(Now(q), a)
  }

  ghost function Now(r: Run): State
    requires Valid(r)
    decreases r, 1
  {
    match r
    case Boot(pool, cpus, n) => State(pool, seq(cpus, _ => []), {}, seq(n, _ => Idle))
    case After(q, a) => Apply(Now(q), a)
  }

  ghost function AtBoot(r: Run): set<Frame> {
    match r
    case Boot(pool, _, _) => pool
    case After(q, _) => AtBoot(q)
  }

  // ---------------------------------------------------------------- where the frames are

  function Carries(f: Frame): Call -> bool { (c: Call) => (c.Full? || c.Flushed?) && c.frame == f }

  function Is(f: Frame): Frame -> bool { (x: Frame) => x == f }

  function InMags(mags: seq<seq<Frame>>, f: Frame): nat {
    if mags == [] then 0 else InMags(mags[..|mags| - 1], f) + Num(mags[|mags| - 1], Is(f))
  }

  lemma {:induction false} MagsUpdate(mags: seq<seq<Frame>>, i: nat, m: seq<Frame>, f: Frame)
    requires i < |mags|
    ensures Num(mags[i], Is(f)) <= InMags(mags, f) && InMags(mags[i := m], f) == InMags(mags, f) - Num(mags[i], Is(f)) + Num(m, Is(f))
  {
    var p := mags[..|mags| - 1];
    if i == |mags| - 1 {
      assert mags[i := m][..|mags| - 1] == p;
    } else {
      assert mags[i := m][..|mags| - 1] == p[i := m];
      MagsUpdate(p, i, m, f);
    }
  }

  /** In how many places the state has a frame. */
  ghost function Places(s: State, f: Frame): nat {
    (if f in s.pool then 1 else 0) + InMags(s.mags, f) + (if f in s.held then 1 else 0) + Num(s.calls, Carries(f))
  }

  /** No frame is in two places, and none comes from nowhere. */
  ghost predicate Apart(s: State, all: set<Frame>) {
    forall f: Frame :: Places(s, f) <= if f in all then 1 else 0
  }

  /** And none is lost. */
  ghost predicate AllThere(s: State, all: set<Frame>) {
    forall f: Frame :: Places(s, f) == if f in all then 1 else 0
  }

  /** The frames that a step overwrites: those of a magazine that it takes to be empty. */
  ghost function Overwritten(s: State, a: Action): seq<Frame>
    requires Enabled(s, a)
  {
    match a
    case Refill(t, _) => s.mags[s.calls[t].cpu]
    case PutFirst(t) => s.mags[s.calls[t].cpu]
    case _ => []
  }

  lemma {:induction false} NumOnce(xs: seq<Frame>, f: Frame)
    requires forall i, j | 0 <= i < j < |xs| :: xs[i] != xs[j]
    ensures Num(xs, Is(f)) == if f in xs then 1 else 0
  {
    if xs != [] {
      var p := xs[..|xs| - 1];
      NumOnce(p, f);
      assert xs == p + [xs[|xs| - 1]];
    }
  }

  lemma {:induction false} NumIn(xs: seq<Frame>, f: Frame)
    ensures Num(xs, Is(f)) > 0 <==> f in xs
  {
    if xs != [] {
      NumIn(xs[..|xs| - 1], f);
      assert xs == xs[..|xs| - 1] + [xs[|xs| - 1]];
    }
  }

  lemma PopPlaces(s: State, t: nat, cpu: nat, f: Frame)
    requires t < |s.calls| && cpu < |s.mags| && s.mags[cpu] != [] && !s.calls[t].Full? && !s.calls[t].Flushed? && Places(s, s.mags[cpu][|s.mags[cpu]| - 1]) <= 1
    ensures Places(Popped(s, t, cpu), f) == Places(s, f)
  {
    var m := s.mags[cpu];
    var n := |m| - 1;
    MagsUpdate(s.mags, cpu, m[..n], f);
    MagsUpdate(s.mags, cpu, m[..n], m[n]);
    NumUpdate(s.calls, t, Idle, Carries(f));
    NumPositive(m, n, Is(m[n]));
  }

  lemma RefillPlaces(s: State, a: Action, f: Frame)
    requires Enabled(s, a) && a.Refill?
    ensures Places(Apply(s, a), f) == Places(s, f) - Num(Overwritten(s, a), Is(f))
  {
    NumOnce(a.loaded, f);
    MagsUpdate(s.mags, s.calls[a.t].cpu, a.loaded, f);
    NumUpdate(s.calls, a.t, Apply(s, a).calls[a.t], Carries(f));
  }

  lemma FlushPlaces(s: State, a: Action, f: Frame)
    requires Enabled(s, a) && a.Flush? && Places(s, f) <= 1
    ensures Places(Apply(s, a), f) == Places(s, f)
  {
    NumIn(s.mags[s.calls[a.t].cpu], f);
    MagsUpdate(s.mags, s.calls[a.t].cpu, [], f);
    NumUpdate(s.calls, a.t, Apply(s, a).calls[a.t], Carries(f));
  }

  lemma PushPlaces(s: State, a: Action, f: Frame)
    requires Enabled(s, a) && (a.Push? || a.Overfull? || a.Miss? || a.PutFirst?)
    ensures Places(Apply(s, a), f) == Places(s, f) - Num(Overwritten(s, a), Is(f))
  {
    NumUpdate(s.calls, a.t, Apply(s, a).calls[a.t], Carries(f));
    assert a.Push? ==> s.calls[a.t := s.calls[a.t]] == s.calls;
    if a.Push? {
      MagsUpdate(s.mags, a.cpu, s.mags[a.cpu] + [a.f], f);
      assert (s.mags[a.cpu] + [a.f])[..|s.mags[a.cpu]|] == s.mags[a.cpu];
    } else if a.PutFirst? {
      MagsUpdate(s.mags, s.calls[a.t].cpu, [s.calls[a.t].frame], f);
    }
  }

  lemma DirectPlaces(s: State, a: Action, f: Frame)
    requires Enabled(s, a) && (a.Take? || a.Give? || a.FlushOwn?) && Places(s, f) <= 1
    ensures Places(Apply(s, a), f) == Places(s, f)
  {
    if a.FlushOwn? {
      NumIn(s.mags[a.cpu], f);
      MagsUpdate(s.mags, a.cpu, [], f);
    }
  }

  /** A step takes exactly the frames it overwrites out of all places. */
  lemma StepPlaces(s: State, a: Action, all: set<Frame>, f: Frame)
    requires Apart(s, all) && Enabled(s, a)
    ensures Places(Apply(s, a), f) == Places(s, f) - Num(Overwritten(s, a), Is(f))
  {
    assert Places(s, f) <= 1;
    match a
    case Pop(t, cpu) => PopPlaces(s, t, cpu, f);
    case PopLoaded(t) => PopPlaces(s, t, s.calls[t].cpu, f);
    case Refill(_, _) => RefillPlaces(s, a, f);
    case Flush(_) => FlushPlaces(s, a, f);
    case Take(_, _) => DirectPlaces(s, a, f);
    case Give(_, _) => DirectPlaces(s, a, f);
    case FlushOwn(_, _) => DirectPlaces(s, a, f);
    case _ => PushPlaces(s, a, f);
  }

  /** So no frame is lost by a step if and only if it overwrites nothing. */
  lemma KeptExactly(s: State, a: Action, all: set<Frame>)
    requires Apart(s, all) && Enabled(s, a)
    ensures Apart(Apply(s, a), all) && (AllThere(Apply(s, a), all) <==> AllThere(s, all) && Overwritten(s, a) == [])
  {
    var s', lost := Apply(s, a), Overwritten(s, a);
    forall f: Frame ensures Places(s', f) == Places(s, f) - Num(lost, Is(f)) { StepPlaces(s, a, all, f); }
    if lost != [] {
      NumPositive(lost, 0, Is(lost[0]));
      assert Places(s', lost[0]) < Places(s, lost[0]);
    }
    if !AllThere(s, all) {
      var f: Frame :| Places(s, f) != if f in all then 1 else 0;
      assert Places(s', f) <= Places(s, f);
    }
  }

  ghost predicate NeverOverwrites(r: Run)
    requires Valid(r)
  {
    r.After? ==> NeverOverwrites(r.run) && Overwritten(Now(r.run), r.action) == []
  }

  /** Over every interleaving: no frame is ever in two places, and all are still there if and
      only if no refill and no flush found frames in the magazine it had left empty. */
  lemma {:induction false} RunKeptExactly(r: Run)
    requires Valid(r)
    ensures Apart(Now(r), AtBoot(r)) && (AllThere(Now(r), AtBoot(r)) <==> NeverOverwrites(r))
  {
    match r
    case Boot(pool, cpus, n) =>
      forall f: Frame ensures Places(Now(r), f) == if f in pool then 1 else 0 {
        NoneInMags(Now(r).mags, f);
        NumNone(Now(r).calls, Carries(f));
      }
    case After(q, a) =>
      RunKeptExactly(q);
      KeptExactly(Now(q), a, AtBoot(q));
  }

  lemma {:induction false} NoneInMags(mags: seq<seq<Frame>>, f: Frame)
    requires forall i | 0 <= i < |mags| :: mags[i] == []
    ensures InMags(mags, f) == 0
  {
    if mags != [] { NoneInMags(mags[..|mags| - 1], f); }
  }

  // ---------------------------------------------------------------- the count after a refill

  /** Call u has refilled the magazine of the CPU and not popped yet. */
  ghost predicate LoadedOn(s: State, u: int, cpu: nat) { 0 <= u < |s.calls| && s.calls[u] == Loaded(cpu) }

  /** No call is about to take a frame from an empty magazine. */
  ghost predicate CountsHold(s: State) {
    forall u | 0 <= u < |s.calls| && s.calls[u].Loaded? :: s.calls[u].cpu < |s.mags| && s.mags[s.calls[u].cpu] != []
  }

  /** The step empties a magazine that another call has refilled and not popped yet. */
  ghost predicate Drains(s: State, a: Action)
    requires Enabled(s, a)
  {
    match a
    case Pop(t, cpu) => |s.mags[cpu]| == 1 && exists u :: LoadedOn(s, u, cpu)
    case PopLoaded(t) => |s.mags[s.calls[t].cpu]| == 1 && exists u :: u != t && LoadedOn(s, u, s.calls[t].cpu)
    case Refill(t, frames) => frames == [] && exists u :: LoadedOn(s, u, s.calls[t].cpu)
    case Flush(t) => exists u :: LoadedOn(s, u, s.calls[t].cpu)
    case FlushOwn(t, cpu) => exists u :: LoadedOn(s, u, cpu)
    case _ => false
  }

  lemma DrainsExactly(s: State, a: Action)
    requires CountsHold(s) && Enabled(s, a)
    ensures CountsHold(Apply(s, a)) <==> !Drains(s, a)
  {
    var s' := Apply(s, a);
    if !CountsHold(s') {
      var u :| 0 <= u < |s'.calls| && s'.calls[u].Loaded? && !(s'.calls[u].cpu < |s'.mags| && s'.mags[s'.calls[u].cpu] != []);
      assert u != a.t ==> LoadedOn(s, u, s'.calls[u].cpu);
      assert Drains(s, a);
    }
    if Drains(s, a) {
      var cpu := if a.Pop? || a.FlushOwn? then a.cpu else s.calls[a.t].cpu;
      var u :| u != a.t && LoadedOn(s, u, cpu);
      assert s'.calls[u] == Loaded(cpu) && s'.mags[cpu] == [];
    }
  }

  ghost predicate CountsHeld(r: Run)
    requires Valid(r)
  {
    CountsHold(Now(r)) && (r.After? ==> CountsHeld(r.run))
  }

  ghost predicate NeverDrains(r: Run)
    requires Valid(r)
  {
    r.After? ==> NeverDrains(r.run) && !Drains(Now(r.run), r.action)
  }

  /** Over every interleaving: no count is ever about to underflow if and only if no step empties
      a magazine that another call has refilled and not popped yet. */
  lemma {:induction false} RunDrainsExactly(r: Run)
    requires Valid(r)
    ensures CountsHeld(r) <==> NeverDrains(r)
  {
    match r
    case Boot(_, _, _) =>
    case After(q, a) =>
      RunDrainsExactly(q);
      if CountsHeld(q) { DrainsExactly(Now(q), a); }
  }

  // ---------------------------------------------------------------- callers that take turns

  predicate On(c: Call, cpu: nat) { !c.Idle? && c.cpu == cpu }

  /** No call on a magazine starts while another one on it is under way. */
  ghost predicate Polite(s: State, a: Action) {
    a.Pop? || a.Miss? || a.Push? || a.Overfull? || a.FlushOwn? ==> forall t | 0 <= t < |s.calls| :: !On(s.calls[t], a.cpu)
  }

  ghost predicate CallFits(s: State, c: Call) {
    !c.Idle? ==> c.cpu < |s.mags| && (c.Missed? || c.Flushed? ==> s.mags[c.cpu] == []) && (c.Loaded? ==> s.mags[c.cpu] != [])
  }

  ghost predicate Settled(s: State) {
    && (forall t | 0 <= t < |s.calls| :: CallFits(s, s.calls[t]))
    && (forall t, u | 0 <= t < u < |s.calls| && !s.calls[t].Idle? && !s.calls[u].Idle? :: s.calls[t].cpu != s.calls[u].cpu)
  }

  lemma PoliteKeeps(s: State, a: Action)
    requires Settled(s) && Enabled(s, a) && Polite(s, a)
    ensures Settled(Apply(s, a)) && Overwritten(s, a) == []
  {
    var s' := Apply(s, a);
    assert CallFits(s, s.calls[a.t]);
    forall t | 0 <= t < |s.calls| ensures CallFits(s', s'.calls[t]) { assert CallFits(s, s.calls[t]); }
  }

  ghost predicate AllPolite(r: Run)
    requires Valid(r)
  {
    r.After? ==> AllPolite(r.run) && Polite(Now(r.run), r.action)
  }

  /** If calls on one magazine take turns, no frame is ever lost, and no count underflows. */
  lemma {:induction false} PoliteKeepsAll(r: Run)
    requires Valid(r) && AllPolite(r)
    ensures Settled(Now(r)) && AllThere(Now(r), AtBoot(r))
    ensures forall t | 0 <= t < |Now(r).calls| && Now(r).calls[t].Loaded? :: Enabled(Now(r), PopLoaded(t))
  {
    PoliteNeverOverwrites(r);
    RunKeptExactly(r);
    forall t | 0 <= t < |Now(r).calls| && Now(r).calls[t].Loaded? ensures Enabled(Now(r), PopLoaded(t)) {
      assert CallFits(Now(r), Now(r).calls[t]);
    }
  }

  lemma {:induction false} PoliteNeverOverwrites(r: Run)
    requires Valid(r) && AllPolite(r)
    ensures Settled(Now(r)) && NeverOverwrites(r)
  {
    match r
    case Boot(_, _, _) =>
    case After(q, a) =>
      PoliteNeverOverwrites(q);
      PoliteKeeps(Now(q), a);
  }

  // ---------------------------------------------------------------- a run that loses frames

  lemma Extend(q: Run, a: Action) returns (r: Run)
    requires Valid(q) && Enabled(Now(q), a)
    ensures r == After(q, a) && Valid(r) && Now(r) == Apply(Now(q), a) && AtBoot(r) == AtBoot(q)
  {
    r := After(q, a);
  }

  lemma BothMiss(pool: set<Frame>) returns (q: Run)
    ensures Valid(q) && AtBoot(q) == pool && Now(q) == State(pool, [[]], {}, [Missed(0), Missed(0)])
  {
    q := Extend(Boot(pool, 1, 2), Miss(0, 0));
    q := Extend(q, Miss(1, 0));
    assert Now(q).calls == [Missed(0), Missed(0)] && Now(q).mags == [[]];
  }

  lemma FirstRefill(pool: set<Frame>, first: seq<Frame>) returns (q: Run)
    requires Loads(pool, first) && first != []
    ensures Valid(q) && AtBoot(q) == pool && Now(q) == State(pool - (set f | f in first), [first], {}, [Loaded(0), Missed(0)])
  {
    q := BothMiss(pool);
    q := Extend(q, Refill(0, first));
    assert Now(q).mags == [first] && Now(q).calls == [Loaded(0), Missed(0)];
  }

  /** Two callers on one CPU find its magazine empty and both refill it: the second refill
      overwrites the first, and those frames are in no place any more. */
  lemma TwoRefills(pool: set<Frame>, first: seq<Frame>, second: seq<Frame>) returns (r: Run)
    requires Loads(pool, first) && Loads(pool - (set f | f in first), second) && first != []
    ensures Valid(r) && AtBoot(r) == pool && forall f | f in first :: f in pool && Places(Now(r), f) == 0
  {
    var q := FirstRefill(pool, first);
    var a := Refill(1, second);
    RunKeptExactly(q);
    r := Extend(q, a);
    forall f | f in first ensures f in pool && Places(Now(r), f) == 0 { Overwrites(Now(q), a, pool, f); }
  }

  /** A frame that a step overwrites is in no place afterwards. */
  lemma Overwrites(s: State, a: Action, all: set<Frame>, f: Frame)
    requires Apart(s, all) && Enabled(s, a) && f in Overwritten(s, a)
    ensures Places(Apply(s, a), f) == 0 && f in all
  {
    StepPlaces(s, a, all, f);
    NumIn(Overwritten(s, a), f);
    assert Places(s, f) <= if f in all then 1 else 0;
  }

  /** A caller loads the last free frame and another one on the same CPU takes it: the first is
      about to take a frame from an empty magazine. */
  lemma LastFrameTaken(f: Frame) returns (r: Run)
    ensures Valid(r) && Now(r) == State({}, [[]], {f}, [Loaded(0), Idle]) && !CountsHold(Now(r))
  {
    r := Extend(Boot({f}, 1, 2), Miss(0, 0));
    assert Now(r) == State({f}, [[]], {}, [Missed(0), Idle]);
    r := Extend(r, Refill(0, [f]));
    assert Now(r) == State({}, [[f]], {}, [Loaded(0), Idle]);
    r := Extend(r, Pop(1, 0));
    assert Now(r) == State({}, [[]], {f}, [Loaded(0), Idle]);
    assert Now(r).calls[0].Loaded? && Now(r).mags[Now(r).calls[0].cpu] == [];
  }
}
