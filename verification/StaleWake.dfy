/** sched_wake_task reads the task's cpu_id before it takes that CPU's lock. If a sleeping
    task has moved in between, the wake leaves it on the other CPU's sleep list, and the
    run below ends with one task current on two CPUs. Together with
    SchedulerProtocol.NeverOnTwoCpus this pins the condition exclusion rests on: the CPU id
    of a SLEEPING task must still be current when the lock is held. */
module StaleWake {
  import opened Common
  import opened SchedulerProtocol

  lemma {:induction false} Extend(r: Run, a: Action) returns (r': Run)
    requires IsRun(r, false) && Enabled(Now(r), a, false)
    ensures IsRun(r', false) && Now(r') == Apply(Now(r), a)
  {
    r' := After(r, a);
  }

  lemma {:induction false} PassOne(r: Run, c: nat) returns (r': Run)
    requires IsRun(r, false) && HasCpu(Now(r), c) && Now(r).cores[c].phase.Scanning?
    ensures IsRun(r', false) && Now(r') == ScanOne(Now(r), c)
  {
    r' := Extend(r, Scan(c));
  }

  lemma {:induction false} ScanClear(s: State, c: nat)
    requires |s.cores| == 2 && c < 2 && s.cores[c].phase.Scanning? && s.cores[c].phase.seen < 2
    requires s.cores[1 - c].current != s.cores[c].phase.next
    ensures ScanOne(s, c) == SetPhase(s, c, Scanning(s.cores[c].phase.next, s.cores[c].phase.seen + 1))
  {
  }

  lemma {:induction false} SetPhaseTwice(s: State, c: nat, p: Phase, q: Phase)
    requires HasCpu(s, c)
    ensures SetPhase(SetPhase(s, c, p), c, q) == SetPhase(s, c, q)
  {
    assert SetPhase(SetPhase(s, c, p), c, q).cores == SetPhase(s, c, q).cores;
  }

  /** On two CPUs, a pick that the other CPU does not run passes the scan. */
  lemma {:induction false} PassScan(r: Run, c: nat) returns (r': Run)
    requires IsRun(r, false) && |Now(r).cores| == 2 && c < 2
    requires Now(r).cores[c].phase.Scanning? && Now(r).cores[c].phase.seen == 0
    requires Now(r).cores[1 - c].current != Now(r).cores[c].phase.next
    ensures IsRun(r', false) && Now(r') == SetPhase(Now(r), c, Chosen(Now(r).cores[c].phase.next))
  {
    var s := Now(r);
    var t := s.cores[c].phase.next;
    ScanClear(s, c);
    r' := PassOne(r, c);
    var s1 := SetPhase(s, c, Scanning(t, 1));
    ScanClear(s1, c);
    SetPhaseTwice(s, c, Scanning(t, 1), Scanning(t, 2));
    r' := PassOne(r', c);
    var s2 := SetPhase(s, c, Scanning(t, 2));
    SetPhaseTwice(s, c, Scanning(t, 2), Chosen(t));
    assert ScanOne(s2, c) == SetPhase(s2, c, Chosen(t));
    r' := PassOne(r', c);
  }

  function Switch(s: State, c: nat): State
    requires HasCpu(s, c) && s.cores[c].phase.Chosen?
  {
    RunPending(PublishMarked(MarkRunning(s, c), c), c)
  }

  /** From the choice of the next task to the end of the switch. */
  lemma {:induction false} FinishSwitch(r: Run, c: nat) returns (r': Run)
    requires IsRun(r, false) && HasCpu(Now(r), c) && Now(r).cores[c].phase.Chosen?
    ensures IsRun(r', false) && Now(r') == Switch(Now(r), c)
  {
    var r1 := Extend(r, Mark(c));
    var r2 := Extend(r1, Publish(c));
    r' := Extend(r2, CheckPending(c));
  }

  /** The state after CPU c entered schedule() and switched to a task of v's runqueue. */
  function SwitchedTo(s: State, c: nat, v: nat, t: Task): State
    requires HasCpu(s, c) && HasCpu(s, v) && t in EnterSchedule(s, c).tasks
  {
    Switch(SetPhase(TakeFrom(EnterSchedule(s, c), c, v, t), c, Chosen(t)), c)
  }

  predicate CanTake(s: State, c: nat, v: nat, t: Task) {
    && |s.cores| == 2 && c < 2 && v < 2
    && s.cores[c].phase.Leaving?
    && t in s.tasks && t in s.cores[v].rq && !s.tasks[t].status.Zombie?
    && (v == c || AllowedOn(s.tasks[t].affinity, c))
    && s.cores[1 - c].current != t
  }

  lemma {:induction false} TakeEffect(s: State, c: nat, v: nat, t: Task)
    requires CanTake(s, c, v, t)
    ensures var s' := TakeFrom(s, c, v, t);
            |s'.cores| == 2 && s'.cores[c].phase == Scanning(t, 0) && s'.cores[1 - c].current != t
  {
  }

  lemma {:induction false} Take(r: Run, c: nat, v: nat, t: Task) returns (r': Run)
    requires IsRun(r, false) && CanTake(Now(r), c, v, t)
    ensures IsRun(r', false) && Now(r') == TakeFrom(Now(r), c, v, t)
  {
    if v == c {
      r' := Extend(r, Pick(c, t));
    } else {
      r' := Extend(r, Steal(c, v, t));
    }
  }

  lemma {:induction false} TakeIt(r: Run, c: nat, v: nat, t: Task) returns (r': Run)
    requires IsRun(r, false) && CanTake(Now(r), c, v, t)
    ensures IsRun(r', false) && Now(r') == SetPhase(TakeFrom(Now(r), c, v, t), c, Chosen(t))
  {
    TakeEffect(Now(r), c, v, t);
    r' := Take(r, c, v, t);
    r' := PassScan(r', c);
  }

  lemma {:induction false} SwitchTo(r: Run, c: nat, v: nat, t: Task) returns (r': Run)
    requires IsRun(r, false) && HasCpu(Now(r), c) && HasCpu(Now(r), v)
    requires Now(r).cores[c].phase.Executing? || Now(r).cores[c].phase.Committed?
    requires CanTake(EnterSchedule(Now(r), c), c, v, t)
    ensures IsRun(r', false) && Now(r') == SwitchedTo(Now(r), c, v, t)
  {
    var r1 := Extend(r, Enter(c));
    var r2 := TakeIt(r1, c, v, t);
    r' := FinishSwitch(r2, c);
  }

  const T := Proc(1)
  const A := Proc(2)
  const B := Proc(3)

  function Cpu(rq: multiset<Task>, sleepers: multiset<Task>, current: Task, phase: Phase): Core {
    Core(rq, sleepers, None, current, phase)
  }

  const NoTask: multiset<Task> := multiset{}

  /** A is pinned to CPU 0; T may run anywhere and starts on CPU 0, where the waker reads
      its cpu_id. */
  const Queued0 := State(
    [Cpu(multiset{A, T}, NoTask, Idle(0), Executing), Cpu(NoTask, NoTask, Idle(1), Executing)],
    map[A := Info(Ready, 0, 0, true), T := Info(Ready, 0, -1, true)])

  /** CPU 1 has stolen T. */
  const Stolen1 := State(
    [Cpu(multiset{A}, NoTask, Idle(0), Executing), Cpu(NoTask, NoTask, T, Executing)],
    map[A := Info(Ready, 0, 0, true), T := Info(Running, 1, -1, false)])

  /** T put itself to sleep there, */
  const Slept1 := State(
    [Cpu(multiset{A}, NoTask, Idle(0), Executing), Cpu(NoTask, multiset{T}, T, Committed)],
    map[A := Info(Ready, 0, 0, true), T := Info(Sleeping, 1, -1, false)])

  /** and CPU 1, seeing only one task on CPU 0, went idle. */
  const Asleep1 := State(
    [Cpu(multiset{A}, NoTask, Idle(0), Executing), Cpu(NoTask, multiset{T}, Idle(1), Executing)],
    map[A := Info(Ready, 0, 0, true), T := Info(Sleeping, 1, -1, false)])

  /** The stale wake queued T on CPU 0; CPU 1 still lists it as asleep. */
  const Woken0 := State(
    [Cpu(multiset{A, T}, NoTask, Idle(0), Executing), Cpu(NoTask, multiset{T}, Idle(1), Executing)],
    map[A := Info(Ready, 0, 0, true), T := Info(Ready, 0, -1, true)])

  /** T runs on CPU 0. */
  const Running0 := State(
    [Cpu(multiset{A}, NoTask, T, Executing), Cpu(NoTask, multiset{T}, Idle(1), Executing)],
    map[A := Info(Ready, 0, 0, true), T := Info(Running, 0, -1, false)])

  /** CPU 1's tick queued the running T, and T then blocked. */
  const Ticked := State(
    [Cpu(multiset{A}, NoTask, T, Committed), Cpu(multiset{T}, NoTask, Idle(1), Executing)],
    map[A := Info(Ready, 0, 0, true), T := Info(Blocked, 1, -1, true)])

  /** CPU 0 went on with A. */
  const BlockedQueued := State(
    [Cpu(NoTask, NoTask, A, Executing), Cpu(multiset{T}, NoTask, Idle(1), Executing)],
    map[A := Info(Running, 0, 0, false), T := Info(Blocked, 1, -1, true)])

  /** CPU 1 picked the blocked T and passed its scan. */
  const Chosen1 := State(
    [Cpu(NoTask, NoTask, A, Executing), Cpu(NoTask, NoTask, Idle(1), Chosen(T))],
    map[A := Info(Running, 0, 0, false), T := Info(Blocked, 1, -1, false)])

  /** T's waker queued it again while CPU 1 still holds it. */
  const PickedTwice := State(
    [Cpu(NoTask, NoTask, A, Executing), Cpu(multiset{T, B}, NoTask, Idle(1), Chosen(T))],
    map[A := Info(Running, 0, 0, false), T := Info(Ready, 1, -1, true), B := Info(Ready, 1, 1, true)])

  lemma {:induction false} ReachQueued0() returns (r: Run)
    ensures IsRun(r, false) && Now(r) == Queued0
  {
    r := Boot(State([Cpu(NoTask, NoTask, Idle(0), Executing), Cpu(NoTask, NoTask, Idle(1), Executing)], map[]));
    r := Extend(r, Create(A, 0, 0));
    r := Extend(r, Create(T, -1, 0));
    assert Now(r).cores[0] == Queued0.cores[0];
    assert Now(r).cores == Queued0.cores;
  }

  lemma {:induction false} Stolen1Is()
    ensures CanTake(EnterSchedule(Queued0, 1), 1, 0, T) && SwitchedTo(Queued0, 1, 0, T) == Stolen1
  {
    var s := SwitchedTo(Queued0, 1, 0, T);
    assert s.cores[0].rq == multiset{A};
    assert s.cores == Stolen1.cores;
  }

  lemma {:induction false} ReachStolen1() returns (r: Run)
    ensures IsRun(r, false) && Now(r) == Stolen1
  {
    r := ReachQueued0();
    Stolen1Is();
    r := SwitchTo(r, 1, 0, T);
  }

  lemma {:induction false} ReachSlept1() returns (r: Run)
    ensures IsRun(r, false) && Now(r) == Slept1
  {
    r := ReachStolen1();
    r := Extend(r, Sleep(1));
    assert Now(r).cores[1].sleepers == multiset{T};
    assert Now(r).cores == Slept1.cores;
  }

  /** CPU 1 found nothing to run. */
  const Idling1 := State(
    [Cpu(multiset{A}, NoTask, Idle(0), Executing), Cpu(NoTask, multiset{T}, T, Chosen(Idle(1)))],
    map[A := Info(Ready, 0, 0, true), T := Info(Sleeping, 1, -1, false)])

  lemma {:induction false} ReachIdling1() returns (r: Run)
    ensures IsRun(r, false) && Now(r) == Idling1
  {
    r := ReachSlept1();
    r := Extend(r, Enter(1));
    r := Extend(r, PickNothing(1));
    assert Now(r).cores == Idling1.cores;
  }

  lemma {:induction false} ReachAsleep1() returns (r: Run)
    ensures IsRun(r, false) && Now(r) == Asleep1
  {
    r := ReachIdling1();
    r := FinishSwitch(r, 1);
    assert Now(r).cores == Asleep1.cores;
  }

  lemma {:induction false} ReachWoken0() returns (r: Run)
    ensures IsRun(r, false) && Now(r) == Woken0
  {
    r := ReachAsleep1();
    r := Extend(r, Wake(T, 0));
    assert Now(r).cores[0].rq == multiset{A, T} && Now(r).cores[0].sleepers == NoTask;
    assert Now(r).cores == Woken0.cores;
  }

  lemma {:induction false} Running0Is()
    ensures CanTake(EnterSchedule(Woken0, 0), 0, 0, T) && SwitchedTo(Woken0, 0, 0, T) == Running0
  {
    var s := SwitchedTo(Woken0, 0, 0, T);
    assert s.cores[0].rq == multiset{A};
    assert s.cores == Running0.cores;
  }

  lemma {:induction false} ReachRunning0() returns (r: Run)
    ensures IsRun(r, false) && Now(r) == Running0
  {
    r := ReachWoken0();
    Running0Is();
    r := SwitchTo(r, 0, 0, T);
  }

  lemma {:induction false} ReachTicked() returns (r: Run)
    ensures IsRun(r, false) && Now(r) == Ticked
  {
    r := ReachRunning0();
    r := Extend(r, TickWake(1, T));
    assert Now(r).cores[1].rq == multiset{T} && Now(r).cores[1].sleepers == NoTask;
    r := Extend(r, Block(0));
    assert Now(r).cores == Ticked.cores;
  }

  lemma {:induction false} BlockedQueuedIs()
    ensures CanTake(EnterSchedule(Ticked, 0), 0, 0, A) && SwitchedTo(Ticked, 0, 0, A) == BlockedQueued
  {
    var s := SwitchedTo(Ticked, 0, 0, A);
    assert s.cores[0].rq == NoTask;
    assert s.cores == BlockedQueued.cores;
  }

  lemma {:induction false} ReachBlockedQueued() returns (r: Run)
    ensures IsRun(r, false) && Now(r) == BlockedQueued
  {
    r := ReachTicked();
    BlockedQueuedIs();
    r := SwitchTo(r, 0, 0, A);
  }

  lemma {:induction false} ReachChosen1() returns (r: Run)
    ensures IsRun(r, false) && Now(r) == Chosen1
  {
    r := ReachBlockedQueued();
    r := Extend(r, Enter(1));
    r := TakeIt(r, 1, 1, T);
    assert Now(r).cores[1].rq == NoTask;
    assert Now(r).cores == Chosen1.cores;
  }

  const QueuedTwice := State(
    [Cpu(NoTask, NoTask, A, Executing), Cpu(multiset{T}, NoTask, Idle(1), Chosen(T))],
    map[A := Info(Running, 0, 0, false), T := Info(Ready, 1, -1, true)])

  lemma {:induction false} ReachQueuedTwice() returns (r: Run)
    ensures IsRun(r, false) && Now(r) == QueuedTwice
  {
    r := ReachChosen1();
    r := Extend(r, Wake(T, 1));
    assert Now(r).cores[1].rq == multiset{T};
    assert Now(r).cores == QueuedTwice.cores;
  }

  lemma {:induction false} ReachPickedTwice() returns (r: Run)
    ensures IsRun(r, false) && Now(r) == PickedTwice
  {
    r := ReachQueuedTwice();
    r := Extend(r, Create(B, 1, 1));
    assert Now(r).cores[1].rq == multiset{T, B};
    assert Now(r).cores == PickedTwice.cores;
  }

  lemma {:induction false} ReachStolenBack() returns (r: Run)
    ensures IsRun(r, false) && |Now(r).cores| == 2 && Now(r).cores[0].current == T && Now(r).cores[1].phase == Chosen(T)
  {
    r := ReachPickedTwice();
    r := SwitchTo(r, 0, 1, T);
  }

  lemma {:induction false} ReachTwoCpus() returns (r: Run)
    ensures IsRun(r, false) && |Now(r).cores| == 2 && Now(r).cores[0].current == Now(r).cores[1].current == T
  {
    r := ReachStolenBack();
    r := FinishSwitch(r, 1);
  }

  /** With a stale cpu_id, a run ends with one task current on two CPUs. */
  lemma {:induction false} StaleWakeBreaksExclusion() returns (r: Run)
    ensures IsRun(r, false) && !IsRun(r, true)
    ensures |Now(r).cores| == 2 && Now(r).cores[0].current == Now(r).cores[1].current == T
  {
    r := ReachTwoCpus();
    if IsRun(r, true) {
      NeverOnTwoCpus(r, 0, 1);
    }
  }

  /** Step by step the condition is exact: waking a sleeping task keeps every task in one
      place if and only if the CPU id the waker read is still the task's. */
  lemma {:induction false} FreshExactly(s: State, pl: Places, t: Task, k: nat)
    requires Inv(s, pl) && HasCpu(s, k) && t in s.tasks && s.tasks[t].status.Sleeping? && AllowedOn(s.tasks[t].affinity, k)
    ensures (exists pl' :: Inv(WakeTask(s, t, k), pl')) <==> k == s.tasks[t].cpu
  {
    var s', c := WakeTask(s, t, k), s.tasks[t].cpu;
    if k == c {
      var pl' := WakeStep(s, pl, t, k);
    } else {
      assert TaskOk(s, pl, t) && CellOk(s, pl, c, t) && CellOk(s, pl, k, t);
      forall pl' ensures !Inv(s', pl') {
        assert !(CellOk(s', pl', c, t) && CellOk(s', pl', k, t));
      }
    }
  }
}
